/**
 `planTvShowMerge`: from the season and episode rows of two shows to the lists of row ids the merge will repoint, move,
 transfer and delete. The planner is proved against the list of decisions it stands for, one per source season and one
 per episode of a matched season.
 */
module MergePlanner {
  import opened Text
  import opened Catalog
  import opened TvMerge

  datatype SeasonRow = SeasonRow(id: Id, number: nat)

  datatype EpisodeRow = EpisodeRow(id: Id, seasonId: Id, kind: Option<string>, number: nat)

  /** One entry of an insertion-ordered map from an owner to the ids pushed under it. */
  datatype Entry = Entry(owner: Id, ids: seq<Id>)

  datatype Lists = Lists(
    deleteSeasonIds: seq<Id>, transferSeasonIds: seq<Id>, deleteEpisodeIds: seq<Id>,
    mediaFileRepoints: seq<Entry>, movesByTargetSeason: seq<Entry>)

  const EMPTY := Lists([], [], [], [], [])

  // ----- identities

  function IdentityKey(kind: Option<string>, number: nat): string {
    (if kind.Some? then kind.value else "") + ":" + Decimal(number)
  }

  lemma ColonIsLast(prefix: string, digits: string)
    requires Digits(digits)
    ensures var key := prefix + ":" + digits;
            key[|prefix|] == ':' && forall i :: |prefix| < i < |key| ==> key[i] != ':'
  {
  }

  /** The printed key distinguishes exactly type and number; a missing type counts as the empty one. */
  lemma IdentityKeyExact(k: Option<string>, n: nat, l: Option<string>, m: nat)
    ensures IdentityKey(k, n) == IdentityKey(l, m)
       <==> n == m && (if k.Some? then k.value else "") == (if l.Some? then l.value else "")
  {
    var p, q := if k.Some? then k.value else "", if l.Some? then l.value else "";
    ColonIsLast(p, Decimal(n));
    ColonIsLast(q, Decimal(m));
    if IdentityKey(k, n) == IdentityKey(l, m) {
      var key := IdentityKey(k, n);
      assert |p| == |q|;
      assert p == key[..|p|] && q == key[..|q|];
      assert Decimal(n) == key[|p| + 1..] && Decimal(m) == key[|q| + 1..];
      DecimalRoundTrip(n);
      DecimalRoundTrip(m);
    }
  }

  // ----- the lookup tables the planner builds first

  /** `toMap(rows, number)`: the last row of a number wins. */
  function SeasonsByNumber(rows: seq<SeasonRow>): map<nat, SeasonRow> {
    if rows == [] then map[] else SeasonsByNumber(rows[..|rows| - 1])[rows[|rows| - 1].number := rows[|rows| - 1]]
  }

  lemma {:induction false} SeasonsByNumberFinds(rows: seq<SeasonRow>, n: nat)
    ensures n in SeasonsByNumber(rows) <==> exists i :: 0 <= i < |rows| && rows[i].number == n
    ensures n in SeasonsByNumber(rows) ==> SeasonsByNumber(rows)[n] in rows && SeasonsByNumber(rows)[n].number == n
  {
    if rows != [] { SeasonsByNumberFinds(rows[..|rows| - 1], n); }
  }

  /** `toMap(rows, episodeIdentity)`. */
  function EpisodesByIdentity(rows: seq<EpisodeRow>): map<string, EpisodeRow> {
    if rows == [] then map[]
    else var last := rows[|rows| - 1]; EpisodesByIdentity(rows[..|rows| - 1])[IdentityKey(last.kind, last.number) := last]
  }

  lemma {:induction false} EpisodesByIdentityFinds(rows: seq<EpisodeRow>, key: string)
    ensures key in EpisodesByIdentity(rows) <==> exists i :: 0 <= i < |rows| && IdentityKey(rows[i].kind, rows[i].number) == key
    ensures key in EpisodesByIdentity(rows) ==>
        var r := EpisodesByIdentity(rows)[key]; r in rows && IdentityKey(r.kind, r.number) == key
  {
    if rows != [] { EpisodesByIdentityFinds(rows[..|rows| - 1], key); }
  }

  function RowsOf(groups: map<Id, seq<EpisodeRow>>, seasonId: Id): seq<EpisodeRow> {
    if seasonId in groups then groups[seasonId] else []
  }

  // ----- the decisions

  datatype Decision =
    | Transfer(seasonId: Id)
    | Drop(seasonId: Id)
    | Repoint(episodeId: Id, twin: Id)
    | Move(episodeId: Id, newSeason: Id)

  function EpisodeDecision(row: EpisodeRow, match_: SeasonRow, targets: map<string, EpisodeRow>): Decision {
    var key := IdentityKey(row.kind, row.number);
    if key in targets then Repoint(row.id, targets[key].id) else Move(row.id, match_.id)
  }

  function EpisodeDecisions(rows: seq<EpisodeRow>, match_: SeasonRow, targets: map<string, EpisodeRow>): seq<Decision> {
    if rows == [] then []
    else EpisodeDecisions(rows[..|rows| - 1], match_, targets) + [EpisodeDecision(rows[|rows| - 1], match_, targets)]
  }

  function SeasonDecisions(
      season: SeasonRow, numbers: map<nat, SeasonRow>,
      sourceEps: map<Id, seq<EpisodeRow>>, targetEps: map<Id, seq<EpisodeRow>>): seq<Decision>
  {
    if season.number !in numbers then [Transfer(season.id)]
    else
      var match_ := numbers[season.number];
      [Drop(season.id)]
      + EpisodeDecisions(RowsOf(sourceEps, season.id), match_, EpisodesByIdentity(RowsOf(targetEps, match_.id)))
  }

  function Decisions(
      sourceSeasons: seq<SeasonRow>, numbers: map<nat, SeasonRow>,
      sourceEps: map<Id, seq<EpisodeRow>>, targetEps: map<Id, seq<EpisodeRow>>): seq<Decision>
  {
    if sourceSeasons == [] then []
    else
      Decisions(sourceSeasons[..|sourceSeasons| - 1], numbers, sourceEps, targetEps)
      + SeasonDecisions(sourceSeasons[|sourceSeasons| - 1], numbers, sourceEps, targetEps)
  }

  // ----- collecting decisions into the plan's lists

  function OwnerIndex(entries: seq<Entry>, owner: Id): (i: nat)
    ensures i <= |entries|
    ensures i < |entries| ==> entries[i].owner == owner
    ensures forall j :: 0 <= j < i ==> entries[j].owner != owner
  {
    if entries == [] || entries[0].owner == owner then 0 else 1 + OwnerIndex(entries[1..], owner)
  }

  /** `const ids = m.get(owner); if (ids) ids.push(id); else m.set(owner, [id])`. */
  function PushUnder(entries: seq<Entry>, owner: Id, id: Id): seq<Entry> {
    var i := OwnerIndex(entries, owner);
    if i < |entries| then entries[i := Entry(owner, entries[i].ids + [id])] else entries + [Entry(owner, [id])]
  }

  function Collect(plan: Lists, d: Decision): Lists {
    match d
    case Transfer(s) => plan.(transferSeasonIds := plan.transferSeasonIds + [s])
    case Drop(s) => plan.(deleteSeasonIds := plan.deleteSeasonIds + [s])
    case Repoint(e, twin) =>
      plan.(mediaFileRepoints := PushUnder(plan.mediaFileRepoints, twin, e), deleteEpisodeIds := plan.deleteEpisodeIds + [e])
    case Move(e, season) => plan.(movesByTargetSeason := PushUnder(plan.movesByTargetSeason, season, e))
  }

  function CollectAll(plan: Lists, ds: seq<Decision>): Lists {
    if ds == [] then plan else Collect(CollectAll(plan, ds[..|ds| - 1]), ds[|ds| - 1])
  }

  lemma {:induction false} CollectAppend(plan: Lists, ds: seq<Decision>, es: seq<Decision>)
    ensures CollectAll(plan, ds + es) == CollectAll(CollectAll(plan, ds), es)
  {
    if es == [] {
      assert ds + es == ds;
    } else {
      var n := |es| - 1;
      assert (ds + es)[..|ds + es| - 1] == ds + es[..n];
      CollectAppend(plan, ds, es[..n]);
    }
  }

  lemma EpisodeDecisionsNext(plan: Lists, rows: seq<EpisodeRow>, match_: SeasonRow, targets: map<string, EpisodeRow>, j: nat)
    requires j < |rows|
    ensures CollectAll(plan, EpisodeDecisions(rows[..j + 1], match_, targets))
         == Collect(CollectAll(plan, EpisodeDecisions(rows[..j], match_, targets)), EpisodeDecision(rows[j], match_, targets))
  {
    var front, last := EpisodeDecisions(rows[..j], match_, targets), EpisodeDecision(rows[j], match_, targets);
    assert rows[..j + 1][..j] == rows[..j];
    assert (front + [last])[..|front|] == front;
  }

  lemma DecisionsNext(
      seasons: seq<SeasonRow>, numbers: map<nat, SeasonRow>,
      sourceEps: map<Id, seq<EpisodeRow>>, targetEps: map<Id, seq<EpisodeRow>>, i: nat)
    requires i < |seasons|
    ensures CollectAll(EMPTY, Decisions(seasons[..i + 1], numbers, sourceEps, targetEps))
         == CollectAll(CollectAll(EMPTY, Decisions(seasons[..i], numbers, sourceEps, targetEps)),
                       SeasonDecisions(seasons[i], numbers, sourceEps, targetEps))
  {
    assert seasons[..i + 1][..i] == seasons[..i];
    CollectAppend(EMPTY, Decisions(seasons[..i], numbers, sourceEps, targetEps), SeasonDecisions(seasons[i], numbers, sourceEps, targetEps));
  }

  lemma MatchedSeasonCollects(
      plan: Lists, season: SeasonRow, numbers: map<nat, SeasonRow>,
      sourceEps: map<Id, seq<EpisodeRow>>, targetEps: map<Id, seq<EpisodeRow>>)
    ensures season.number !in numbers ==>
      CollectAll(plan, SeasonDecisions(season, numbers, sourceEps, targetEps)) == Collect(plan, Transfer(season.id))
    ensures season.number in numbers ==>
      var match_ := numbers[season.number];
      CollectAll(plan, SeasonDecisions(season, numbers, sourceEps, targetEps))
      == CollectAll(Collect(plan, Drop(season.id)),
                    EpisodeDecisions(RowsOf(sourceEps, season.id), match_, EpisodesByIdentity(RowsOf(targetEps, match_.id))))
  {
    if season.number in numbers {
      var match_ := numbers[season.number];
      CollectAppend(plan, [Drop(season.id)],
                    EpisodeDecisions(RowsOf(sourceEps, season.id), match_, EpisodesByIdentity(RowsOf(targetEps, match_.id))));
    }
  }

  lemma SeasonsByNumberNext(rows: seq<SeasonRow>, i: nat)
    requires i < |rows|
    ensures SeasonsByNumber(rows[..i + 1]) == SeasonsByNumber(rows[..i])[rows[i].number := rows[i]]
  {
    assert rows[..i + 1][..i] == rows[..i];
  }

  /** The inner loop: the episodes of one matched season. */
  method PlanEpisodes(plan: Lists, rows: seq<EpisodeRow>, match_: SeasonRow, targets: map<string, EpisodeRow>)
    returns (next: Lists)
    ensures next == CollectAll(plan, EpisodeDecisions(rows, match_, targets))
  {
    next := plan;
    for j := 0 to |rows|
      invariant next == CollectAll(plan, EpisodeDecisions(rows[..j], match_, targets))
    {
      EpisodeDecisionsNext(plan, rows, match_, targets, j);
      var key := IdentityKey(rows[j].kind, rows[j].number);
      if key in targets {
        next := next.(mediaFileRepoints := PushUnder(next.mediaFileRepoints, targets[key].id, rows[j].id));
        next := next.(deleteEpisodeIds := next.deleteEpisodeIds + [rows[j].id]);
      } else {
        next := next.(movesByTargetSeason := PushUnder(next.movesByTargetSeason, match_.id, rows[j].id));
      }
    }
    assert rows[..|rows|] == rows;
  }

  method IndexSeasons(rows: seq<SeasonRow>) returns (byNumber: map<nat, SeasonRow>)
    ensures byNumber == SeasonsByNumber(rows)
  {
    byNumber := map[];
    for i := 0 to |rows|
      invariant byNumber == SeasonsByNumber(rows[..i])
    {
      SeasonsByNumberNext(rows, i);
      byNumber := byNumber[rows[i].number := rows[i]];
    }
    assert rows[..|rows|] == rows;
  }

  /** One turn of the outer loop. */
  method PlanSeason(
      plan: Lists, season: SeasonRow, byNumber: map<nat, SeasonRow>, byIdentity: map<Id, map<string, EpisodeRow>>,
      sourceEps: map<Id, seq<EpisodeRow>>, ghost targetEps: map<Id, seq<EpisodeRow>>)
    returns (next: Lists)
    requires byIdentity == (map s | s in targetEps :: EpisodesByIdentity(targetEps[s]))
    ensures next == CollectAll(plan, SeasonDecisions(season, byNumber, sourceEps, targetEps))
  {
    MatchedSeasonCollects(plan, season, byNumber, sourceEps, targetEps);
    if season.number !in byNumber {
      return plan.(transferSeasonIds := plan.transferSeasonIds + [season.id]);
    }
    var match_ := byNumber[season.number];
    next := plan.(deleteSeasonIds := plan.deleteSeasonIds + [season.id]);
    var targets := if match_.id in byIdentity then byIdentity[match_.id] else map[];
    next := PlanEpisodes(next, RowsOf(sourceEps, season.id), match_, targets);
  }

  /** The planner's loops, pushing into the plan as they go. */
  method PlanTvShowMerge(
      sourceSeasons: seq<SeasonRow>, targetSeasons: seq<SeasonRow>,
      sourceEps: map<Id, seq<EpisodeRow>>, targetEps: map<Id, seq<EpisodeRow>>)
    returns (plan: Lists)
    ensures plan == CollectAll(EMPTY, Decisions(sourceSeasons, SeasonsByNumber(targetSeasons), sourceEps, targetEps))
  {
    plan := EMPTY;
    var byNumber := IndexSeasons(targetSeasons);
    var byIdentity := map s | s in targetEps :: EpisodesByIdentity(targetEps[s]);
    for i := 0 to |sourceSeasons|
      invariant plan == CollectAll(EMPTY, Decisions(sourceSeasons[..i], byNumber, sourceEps, targetEps))
    {
      DecisionsNext(sourceSeasons, byNumber, sourceEps, targetEps, i);
      plan := PlanSeason(plan, sourceSeasons[i], byNumber, byIdentity, sourceEps, targetEps);
    }
    assert sourceSeasons[..|sourceSeasons|] == sourceSeasons;
  }

  // ----- every row is treated exactly once, whatever rows the planner is given

  function Ids(rows: seq<SeasonRow>): seq<Id> {
    if rows == [] then [] else Ids(rows[..|rows| - 1]) + [rows[|rows| - 1].id]
  }

  function EpisodeIds(rows: seq<EpisodeRow>): seq<Id> {
    if rows == [] then [] else EpisodeIds(rows[..|rows| - 1]) + [rows[|rows| - 1].id]
  }

  /** The episodes of the matched seasons, season by season. */
  function MatchedEpisodeIds(seasons: seq<SeasonRow>, numbers: map<nat, SeasonRow>, sourceEps: map<Id, seq<EpisodeRow>>): seq<Id> {
    if seasons == [] then []
    else
      var last := seasons[|seasons| - 1];
      MatchedEpisodeIds(seasons[..|seasons| - 1], numbers, sourceEps)
      + if last.number in numbers then EpisodeIds(RowsOf(sourceEps, last.id)) else []
  }

  function SeasonsTreated(ds: seq<Decision>): seq<Id> {
    if ds == [] then []
    else
      var d := ds[|ds| - 1];
      SeasonsTreated(ds[..|ds| - 1]) + if d.Transfer? || d.Drop? then [d.seasonId] else []
  }

  function EpisodesTreated(ds: seq<Decision>): seq<Id> {
    if ds == [] then []
    else
      var d := ds[|ds| - 1];
      EpisodesTreated(ds[..|ds| - 1]) + if d.Repoint? || d.Move? then [d.episodeId] else []
  }

  lemma {:induction false} TreatedAppend(ds: seq<Decision>, es: seq<Decision>)
    ensures SeasonsTreated(ds + es) == SeasonsTreated(ds) + SeasonsTreated(es)
    ensures EpisodesTreated(ds + es) == EpisodesTreated(ds) + EpisodesTreated(es)
  {
    if es == [] {
      assert ds + es == ds;
    } else {
      assert (ds + es)[..|ds + es| - 1] == ds + es[..|es| - 1];
      TreatedAppend(ds, es[..|es| - 1]);
    }
  }

  lemma TreatedNext(ds: seq<Decision>, d: Decision)
    ensures SeasonsTreated(ds + [d]) == SeasonsTreated(ds) + (if d.Transfer? || d.Drop? then [d.seasonId] else [])
    ensures EpisodesTreated(ds + [d]) == EpisodesTreated(ds) + (if d.Repoint? || d.Move? then [d.episodeId] else [])
  {
  }

  lemma {:induction false} EpisodeRowsTreated(rows: seq<EpisodeRow>, match_: SeasonRow, targets: map<string, EpisodeRow>)
    ensures SeasonsTreated(EpisodeDecisions(rows, match_, targets)) == []
    ensures EpisodesTreated(EpisodeDecisions(rows, match_, targets)) == EpisodeIds(rows)
  {
    if rows != [] {
      var front, last := rows[..|rows| - 1], rows[|rows| - 1];
      EpisodeRowsTreated(front, match_, targets);
      TreatedNext(EpisodeDecisions(front, match_, targets), EpisodeDecision(last, match_, targets));
    }
  }

  lemma SeasonRowTreated(
      season: SeasonRow, numbers: map<nat, SeasonRow>,
      sourceEps: map<Id, seq<EpisodeRow>>, targetEps: map<Id, seq<EpisodeRow>>)
    ensures SeasonsTreated(SeasonDecisions(season, numbers, sourceEps, targetEps)) == [season.id]
    ensures EpisodesTreated(SeasonDecisions(season, numbers, sourceEps, targetEps))
         == if season.number in numbers then EpisodeIds(RowsOf(sourceEps, season.id)) else []
  {
    if season.number in numbers {
      var match_ := numbers[season.number];
      var targets := EpisodesByIdentity(RowsOf(targetEps, match_.id));
      EpisodeRowsTreated(RowsOf(sourceEps, season.id), match_, targets);
      TreatedAppend([Drop(season.id)], EpisodeDecisions(RowsOf(sourceEps, season.id), match_, targets));
      assert SeasonsTreated([Drop(season.id)]) == [season.id] && EpisodesTreated([Drop(season.id)]) == [];
    }
  }

  lemma NextRowTreated(
      seasons: seq<SeasonRow>, numbers: map<nat, SeasonRow>,
      sourceEps: map<Id, seq<EpisodeRow>>, targetEps: map<Id, seq<EpisodeRow>>)
    requires seasons != []
    ensures var front, last := seasons[..|seasons| - 1], seasons[|seasons| - 1];
            var before, all := Decisions(front, numbers, sourceEps, targetEps), Decisions(seasons, numbers, sourceEps, targetEps);
      && SeasonsTreated(all) == SeasonsTreated(before) + [last.id]
      && EpisodesTreated(all) == EpisodesTreated(before) + (if last.number in numbers then EpisodeIds(RowsOf(sourceEps, last.id)) else [])
  {
    var front, last := seasons[..|seasons| - 1], seasons[|seasons| - 1];
    SeasonRowTreated(last, numbers, sourceEps, targetEps);
    TreatedAppend(Decisions(front, numbers, sourceEps, targetEps), SeasonDecisions(last, numbers, sourceEps, targetEps));
  }

  lemma {:induction false} SeasonsTreatedOnce(
      seasons: seq<SeasonRow>, numbers: map<nat, SeasonRow>,
      sourceEps: map<Id, seq<EpisodeRow>>, targetEps: map<Id, seq<EpisodeRow>>)
    ensures SeasonsTreated(Decisions(seasons, numbers, sourceEps, targetEps)) == Ids(seasons)
  {
    if seasons != [] {
      SeasonsTreatedOnce(seasons[..|seasons| - 1], numbers, sourceEps, targetEps);
      NextRowTreated(seasons, numbers, sourceEps, targetEps);
    }
  }

  lemma {:induction false} EpisodesTreatedOnce(
      seasons: seq<SeasonRow>, numbers: map<nat, SeasonRow>,
      sourceEps: map<Id, seq<EpisodeRow>>, targetEps: map<Id, seq<EpisodeRow>>)
    ensures EpisodesTreated(Decisions(seasons, numbers, sourceEps, targetEps)) == MatchedEpisodeIds(seasons, numbers, sourceEps)
  {
    if seasons != [] {
      EpisodesTreatedOnce(seasons[..|seasons| - 1], numbers, sourceEps, targetEps);
      NextRowTreated(seasons, numbers, sourceEps, targetEps);
    }
  }

  /** One decision per source season, one per episode of a matched season, in the order the rows came. */
  lemma EveryRowTreatedOnce(
      seasons: seq<SeasonRow>, numbers: map<nat, SeasonRow>,
      sourceEps: map<Id, seq<EpisodeRow>>, targetEps: map<Id, seq<EpisodeRow>>)
    ensures SeasonsTreated(Decisions(seasons, numbers, sourceEps, targetEps)) == Ids(seasons)
    ensures EpisodesTreated(Decisions(seasons, numbers, sourceEps, targetEps)) == MatchedEpisodeIds(seasons, numbers, sourceEps)
  {
    SeasonsTreatedOnce(seasons, numbers, sourceEps, targetEps);
    EpisodesTreatedOnce(seasons, numbers, sourceEps, targetEps);
  }

  // ----- the lists hold exactly the decisions

  ghost predicate Holds(entries: seq<Entry>, owner: Id, id: Id) {
    exists i :: 0 <= i < |entries| && entries[i].owner == owner && id in entries[i].ids
  }

  lemma PushUnderHolds(entries: seq<Entry>, owner: Id, id: Id, o: Id, e: Id)
    ensures Holds(PushUnder(entries, owner, id), o, e) <==> Holds(entries, o, e) || (o == owner && e == id)
  {
    var i := OwnerIndex(entries, owner);
    var pushed := PushUnder(entries, owner, id);
    assert pushed[i].owner == owner && id in pushed[i].ids;
    if Holds(entries, o, e) {
      var j :| 0 <= j < |entries| && entries[j].owner == o && e in entries[j].ids;
      assert pushed[j].owner == o && e in pushed[j].ids;
    }
    if Holds(pushed, o, e) {
      var j :| 0 <= j < |pushed| && pushed[j].owner == o && e in pushed[j].ids;
      if j == i {
        assert e in pushed[i].ids;
      } else {
        assert entries[j] == pushed[j];
      }
    }
  }

  lemma {:induction false} ListsHoldDecisions(ds: seq<Decision>, id: Id, owner: Id)
    ensures var plan := CollectAll(EMPTY, ds);
      && (id in plan.transferSeasonIds <==> Transfer(id) in ds)
      && (id in plan.deleteSeasonIds <==> Drop(id) in ds)
      && (id in plan.deleteEpisodeIds <==> exists d :: d in ds && d.Repoint? && d.episodeId == id)
      && (Holds(plan.mediaFileRepoints, owner, id) <==> Repoint(id, owner) in ds)
      && (Holds(plan.movesByTargetSeason, owner, id) <==> Move(id, owner) in ds)
  {
    if ds != [] {
      var n := |ds| - 1;
      ListsHoldDecisions(ds[..n], id, owner);
      var plan := CollectAll(EMPTY, ds[..n]);
      assert forall d :: d in ds <==> d in ds[..n] || d == ds[n];
      match ds[n]
      case Repoint(e, twin) => PushUnderHolds(plan.mediaFileRepoints, twin, e, owner, id);
      case Move(e, season) => PushUnderHolds(plan.movesByTargetSeason, season, e, owner, id);
      case _ =>
    }
  }

  // ----- on rows read from the tables, the decisions are the merge plan

  ghost predicate SeasonRowsOf(db: Tables, titleId: Id, rows: seq<SeasonRow>) {
    && (forall i :: 0 <= i < |rows| ==> rows[i].id in db.seasons && db.seasons[rows[i].id] == Season(titleId, rows[i].number))
    && (forall s :: s in db.seasons && db.seasons[s].titleId == titleId ==> SeasonRow(s, db.seasons[s].number) in rows)
  }

  ghost predicate EpisodeRowsOf(db: Tables, titleId: Id, groups: map<Id, seq<EpisodeRow>>) {
    && (forall s, i :: s in groups && 0 <= i < |groups[s]| ==> EpisodeRowFits(db, titleId, s, groups[s][i]))
    && (forall e :: EpisodeIn(db, e, titleId) ==> EpisodeRowFor(db, e) in RowsOf(groups, db.episodes[e].seasonId))
  }

  predicate EpisodeRowFits(db: Tables, titleId: Id, seasonId: Id, row: EpisodeRow) {
    EpisodeIn(db, row.id, titleId) && db.episodes[row.id].seasonId == seasonId && row == EpisodeRowFor(db, row.id)
  }

  function EpisodeRowFor(db: Tables, e: Id): EpisodeRow
    requires e in db.episodes
  {
    EpisodeRow(e, db.episodes[e].seasonId, Some(db.episodes[e].kind), db.episodes[e].number)
  }

  /** The rows one merge reads. */
  ghost predicate RowsRead(
      db: Tables, targetId: Id, sourceId: Id, sourceSeasons: seq<SeasonRow>, targetSeasons: seq<SeasonRow>,
      sourceEps: map<Id, seq<EpisodeRow>>, targetEps: map<Id, seq<EpisodeRow>>)
  {
    && SeasonRowsOf(db, sourceId, sourceSeasons) && SeasonRowsOf(db, targetId, targetSeasons)
    && EpisodeRowsOf(db, sourceId, sourceEps) && EpisodeRowsOf(db, targetId, targetEps)
  }

  /** What a decision must mean for the tables. */
  ghost predicate DecisionFits(db: Tables, targetId: Id, sourceId: Id, d: Decision) {
    match d
    case Transfer(s) => s in db.seasons && db.seasons[s].titleId == sourceId && !HasSeasonTwin(db, targetId, s)
    case Drop(s) => s in db.seasons && db.seasons[s].titleId == sourceId && HasSeasonTwin(db, targetId, s)
    case Repoint(e, twin) => EpisodeIn(db, e, sourceId) && EpisodeTwin(db, targetId, e, twin)
    case Move(e, season) =>
      EpisodeIn(db, e, sourceId) && SeasonTwin(db, targetId, db.episodes[e].seasonId, season) && !HasEpisodeTwin(db, targetId, e)
  }

  lemma SeasonNumberFound(db: Tables, titleId: Id, rows: seq<SeasonRow>, s: Id)
    requires SeasonRowsOf(db, titleId, rows) && s in db.seasons
    ensures var numbers, n := SeasonsByNumber(rows), db.seasons[s].number;
      && (n in numbers <==> HasSeasonTwin(db, titleId, s))
      && (n in numbers ==> SeasonTwin(db, titleId, s, numbers[n].id))
  {
    var numbers, n := SeasonsByNumber(rows), db.seasons[s].number;
    SeasonsByNumberFinds(rows, n);
    if n in numbers {
      assert SeasonTwin(db, titleId, s, numbers[n].id);
    }
    if HasSeasonTwin(db, titleId, s) {
      var twin :| SeasonTwin(db, titleId, s, twin);
      var i :| 0 <= i < |rows| && rows[i] == SeasonRow(twin, db.seasons[twin].number);
    }
  }

  /** The identity lookup in the matched season finds exactly the twin of an episode. */
  lemma EpisodeIdentityFound(db: Tables, targetId: Id, groups: map<Id, seq<EpisodeRow>>, e: Id, season: Id)
    requires SeasonsUnique(db) && EpisodeRowsOf(db, targetId, groups)
    requires e in db.episodes && SeasonTwin(db, targetId, db.episodes[e].seasonId, season)
    ensures var targets, key := EpisodesByIdentity(RowsOf(groups, season)), IdentityKey(Some(db.episodes[e].kind), db.episodes[e].number);
      && (key in targets <==> HasEpisodeTwin(db, targetId, e))
      && (key in targets ==> EpisodeTwin(db, targetId, e, targets[key].id))
  {
    var rows := RowsOf(groups, season);
    var key := IdentityKey(Some(db.episodes[e].kind), db.episodes[e].number);
    EpisodesByIdentityFinds(rows, key);
    if key in EpisodesByIdentity(rows) {
      var r := EpisodesByIdentity(rows)[key];
      var i :| 0 <= i < |rows| && rows[i] == r;
      assert EpisodeRowFits(db, targetId, season, groups[season][i]);
      IdentityKeyExact(Some(db.episodes[e].kind), db.episodes[e].number, r.kind, r.number);
      assert EpisodeTwin(db, targetId, e, r.id);
    }
    if HasEpisodeTwin(db, targetId, e) {
      var twin :| EpisodeTwin(db, targetId, e, twin);
      assert db.seasons[db.episodes[twin].seasonId] == db.seasons[season];
      assert EpisodeRowFor(db, twin) in rows;
      var i :| 0 <= i < |rows| && rows[i] == EpisodeRowFor(db, twin);
      assert IdentityKey(rows[i].kind, rows[i].number) == key;
    }
  }

  lemma {:induction false} EpisodeDecisionsIn(rows: seq<EpisodeRow>, match_: SeasonRow, targets: map<string, EpisodeRow>, d: Decision)
    ensures d in EpisodeDecisions(rows, match_, targets)
       <==> exists i :: 0 <= i < |rows| && d == EpisodeDecision(rows[i], match_, targets)
  {
    if rows != [] { EpisodeDecisionsIn(rows[..|rows| - 1], match_, targets, d); }
  }

  lemma {:induction false} DecisionsIn(
      seasons: seq<SeasonRow>, numbers: map<nat, SeasonRow>,
      sourceEps: map<Id, seq<EpisodeRow>>, targetEps: map<Id, seq<EpisodeRow>>, d: Decision)
    ensures d in Decisions(seasons, numbers, sourceEps, targetEps)
       <==> exists i :: 0 <= i < |seasons| && d in SeasonDecisions(seasons[i], numbers, sourceEps, targetEps)
  {
    if seasons != [] {
      var front, last := seasons[..|seasons| - 1], seasons[|seasons| - 1];
      DecisionsIn(front, numbers, sourceEps, targetEps, d);
      var before, here := Decisions(front, numbers, sourceEps, targetEps), SeasonDecisions(last, numbers, sourceEps, targetEps);
      assert d in before + here <==> d in before || d in here;
    }
  }

  lemma EpisodeDecisionFits(
      db: Tables, targetId: Id, sourceId: Id, targetEps: map<Id, seq<EpisodeRow>>, row: EpisodeRow, match_: SeasonRow)
    requires SeasonsUnique(db) && EpisodeRowsOf(db, targetId, targetEps)
    requires EpisodeIn(db, row.id, sourceId) && row == EpisodeRowFor(db, row.id)
    requires SeasonTwin(db, targetId, db.episodes[row.id].seasonId, match_.id)
    ensures DecisionFits(db, targetId, sourceId, EpisodeDecision(row, match_, EpisodesByIdentity(RowsOf(targetEps, match_.id))))
  {
    EpisodeIdentityFound(db, targetId, targetEps, row.id, match_.id);
  }

  lemma SeasonDecisionsFit(
      db: Tables, targetId: Id, sourceId: Id, season: SeasonRow, targetSeasons: seq<SeasonRow>,
      sourceEps: map<Id, seq<EpisodeRow>>, targetEps: map<Id, seq<EpisodeRow>>, d: Decision)
    requires SeasonsUnique(db)
    requires season.id in db.seasons && db.seasons[season.id] == Season(sourceId, season.number)
    requires SeasonRowsOf(db, targetId, targetSeasons)
    requires EpisodeRowsOf(db, sourceId, sourceEps) && EpisodeRowsOf(db, targetId, targetEps)
    requires d in SeasonDecisions(season, SeasonsByNumber(targetSeasons), sourceEps, targetEps)
    ensures DecisionFits(db, targetId, sourceId, d)
  {
    var numbers := SeasonsByNumber(targetSeasons);
    SeasonNumberFound(db, targetId, targetSeasons, season.id);
    if season.number in numbers && d != Drop(season.id) {
      var match_ := numbers[season.number];
      var rows := RowsOf(sourceEps, season.id);
      var targets := EpisodesByIdentity(RowsOf(targetEps, match_.id));
      EpisodeDecisionsIn(rows, match_, targets, d);
      var i :| 0 <= i < |rows| && d == EpisodeDecision(rows[i], match_, targets);
      assert EpisodeRowFits(db, sourceId, season.id, sourceEps[season.id][i]);
      EpisodeDecisionFits(db, targetId, sourceId, targetEps, rows[i], match_);
    }
  }

  lemma DecisionsFit(
      db: Tables, targetId: Id, sourceId: Id, sourceSeasons: seq<SeasonRow>, targetSeasons: seq<SeasonRow>,
      sourceEps: map<Id, seq<EpisodeRow>>, targetEps: map<Id, seq<EpisodeRow>>, d: Decision)
    requires SeasonsUnique(db) && RowsRead(db, targetId, sourceId, sourceSeasons, targetSeasons, sourceEps, targetEps)
    requires d in Decisions(sourceSeasons, SeasonsByNumber(targetSeasons), sourceEps, targetEps)
    ensures DecisionFits(db, targetId, sourceId, d)
  {
    var numbers := SeasonsByNumber(targetSeasons);
    DecisionsIn(sourceSeasons, numbers, sourceEps, targetEps, d);
    var i :| 0 <= i < |sourceSeasons| && d in SeasonDecisions(sourceSeasons[i], numbers, sourceEps, targetEps);
    SeasonDecisionsFit(db, targetId, sourceId, sourceSeasons[i], targetSeasons, sourceEps, targetEps, d);
  }

  /** Every source season has its decision. */
  lemma SeasonDecided(
      db: Tables, targetId: Id, sourceId: Id, sourceSeasons: seq<SeasonRow>, targetSeasons: seq<SeasonRow>,
      sourceEps: map<Id, seq<EpisodeRow>>, targetEps: map<Id, seq<EpisodeRow>>, s: Id)
    requires RowsRead(db, targetId, sourceId, sourceSeasons, targetSeasons, sourceEps, targetEps)
    requires s in db.seasons && db.seasons[s].titleId == sourceId
    ensures var d := if HasSeasonTwin(db, targetId, s) then Drop(s) else Transfer(s);
            d in Decisions(sourceSeasons, SeasonsByNumber(targetSeasons), sourceEps, targetEps)
  {
    var numbers := SeasonsByNumber(targetSeasons);
    var d := if HasSeasonTwin(db, targetId, s) then Drop(s) else Transfer(s);
    SeasonNumberFound(db, targetId, targetSeasons, s);
    var i :| 0 <= i < |sourceSeasons| && sourceSeasons[i] == SeasonRow(s, db.seasons[s].number);
    assert d in SeasonDecisions(sourceSeasons[i], numbers, sourceEps, targetEps);
    DecisionsIn(sourceSeasons, numbers, sourceEps, targetEps, d);
  }

  /** Every episode of a matched source season has its decision. */
  lemma EpisodeDecided(
      db: Tables, targetId: Id, sourceId: Id, sourceSeasons: seq<SeasonRow>, targetSeasons: seq<SeasonRow>,
      sourceEps: map<Id, seq<EpisodeRow>>, targetEps: map<Id, seq<EpisodeRow>>, e: Id) returns (d: Decision)
    requires RowsRead(db, targetId, sourceId, sourceSeasons, targetSeasons, sourceEps, targetEps)
    requires EpisodeIn(db, e, sourceId) && HasSeasonTwin(db, targetId, db.episodes[e].seasonId)
    ensures d in Decisions(sourceSeasons, SeasonsByNumber(targetSeasons), sourceEps, targetEps)
    ensures (d.Repoint? || d.Move?) && d.episodeId == e
  {
    var numbers := SeasonsByNumber(targetSeasons);
    var s := db.episodes[e].seasonId;
    SeasonNumberFound(db, targetId, targetSeasons, s);
    var match_ := numbers[db.seasons[s].number];
    var rows, targets := RowsOf(sourceEps, s), EpisodesByIdentity(RowsOf(targetEps, match_.id));
    var j :| 0 <= j < |rows| && rows[j] == EpisodeRowFor(db, e);
    d := EpisodeDecision(rows[j], match_, targets);
    EpisodeDecisionsIn(rows, match_, targets, d);
    var i :| 0 <= i < |sourceSeasons| && sourceSeasons[i] == SeasonRow(s, db.seasons[s].number);
    assert d in SeasonDecisions(sourceSeasons[i], numbers, sourceEps, targetEps);
    DecisionsIn(sourceSeasons, numbers, sourceEps, targetEps, d);
  }

  // ----- from the lists to the executed statements

  function ToSet(ids: seq<Id>): set<Id> {
    set i | i in ids
  }

  /** What executing the entries one after the other amounts to. */
  function Flattened(entries: seq<Entry>): map<Id, Id> {
    if entries == [] then map[]
    else var last := entries[|entries| - 1]; Flattened(entries[..|entries| - 1]) + Owned(ToSet(last.ids), last.owner)
  }

  lemma {:induction false} FlattenedHolds(entries: seq<Entry>, e: Id)
    ensures e in Flattened(entries) <==> exists o :: Holds(entries, o, e)
    ensures e in Flattened(entries) ==> Holds(entries, Flattened(entries)[e], e)
  {
    if entries != [] {
      var n := |entries| - 1;
      FlattenedHolds(entries[..n], e);
      if e in entries[n].ids {
        assert Holds(entries, entries[n].owner, e);
      } else {
        forall o ensures Holds(entries, o, e) <==> Holds(entries[..n], o, e) {
          if Holds(entries[..n], o, e) {
            var i :| 0 <= i < n && entries[..n][i].owner == o && e in entries[..n][i].ids;
            assert entries[i].owner == o;
          }
          if Holds(entries, o, e) {
            var i :| 0 <= i < |entries| && entries[i].owner == o && e in entries[i].ids;
            assert entries[..n][i].owner == o;
          }
        }
      }
    }
  }

  function AllOf(plan: Lists): Progress {
    Progress(Flattened(plan.mediaFileRepoints), Flattened(plan.movesByTargetSeason), ToSet(plan.transferSeasonIds),
             ToSet(plan.deleteEpisodeIds), ToSet(plan.deleteSeasonIds), true)
  }

  lemma SeasonListsExact(
      db: Tables, targetId: Id, sourceId: Id, sourceSeasons: seq<SeasonRow>, targetSeasons: seq<SeasonRow>,
      sourceEps: map<Id, seq<EpisodeRow>>, targetEps: map<Id, seq<EpisodeRow>>, plan: Lists, s: Id)
    requires SeasonsUnique(db) && RowsRead(db, targetId, sourceId, sourceSeasons, targetSeasons, sourceEps, targetEps)
    requires plan == CollectAll(EMPTY, Decisions(sourceSeasons, SeasonsByNumber(targetSeasons), sourceEps, targetEps))
    ensures s in plan.transferSeasonIds
       <==> s in db.seasons && db.seasons[s].titleId == sourceId && !HasSeasonTwin(db, targetId, s)
    ensures s in plan.deleteSeasonIds
       <==> s in db.seasons && db.seasons[s].titleId == sourceId && HasSeasonTwin(db, targetId, s)
  {
    var ds := Decisions(sourceSeasons, SeasonsByNumber(targetSeasons), sourceEps, targetEps);
    ListsHoldDecisions(ds, s, s);
    if Transfer(s) in ds {
      DecisionsFit(db, targetId, sourceId, sourceSeasons, targetSeasons, sourceEps, targetEps, Transfer(s));
    }
    if Drop(s) in ds {
      DecisionsFit(db, targetId, sourceId, sourceSeasons, targetSeasons, sourceEps, targetEps, Drop(s));
    }
    if s in db.seasons && db.seasons[s].titleId == sourceId {
      SeasonDecided(db, targetId, sourceId, sourceSeasons, targetSeasons, sourceEps, targetEps, s);
    }
  }

  lemma EpisodeListsFit(
      db: Tables, targetId: Id, sourceId: Id, sourceSeasons: seq<SeasonRow>, targetSeasons: seq<SeasonRow>,
      sourceEps: map<Id, seq<EpisodeRow>>, targetEps: map<Id, seq<EpisodeRow>>, plan: Lists, e: Id)
    requires SeasonsUnique(db) && RowsRead(db, targetId, sourceId, sourceSeasons, targetSeasons, sourceEps, targetEps)
    requires plan == CollectAll(EMPTY, Decisions(sourceSeasons, SeasonsByNumber(targetSeasons), sourceEps, targetEps))
    ensures var all := AllOf(plan);
      && (e in all.repoints ==> EpisodeIn(db, e, sourceId) && EpisodeTwin(db, targetId, e, all.repoints[e]))
      && (e in all.dropEpisodes <==> e in all.repoints)
      && (e in all.moves ==>
            && EpisodeIn(db, e, sourceId)
            && SeasonTwin(db, targetId, db.episodes[e].seasonId, all.moves[e])
            && !HasEpisodeTwin(db, targetId, e))
  {
    var ds := Decisions(sourceSeasons, SeasonsByNumber(targetSeasons), sourceEps, targetEps);
    var all := AllOf(plan);
    FlattenedHolds(plan.mediaFileRepoints, e);
    FlattenedHolds(plan.movesByTargetSeason, e);
    if e in all.repoints {
      ListsHoldDecisions(ds, e, all.repoints[e]);
      DecisionsFit(db, targetId, sourceId, sourceSeasons, targetSeasons, sourceEps, targetEps, Repoint(e, all.repoints[e]));
    }
    if e in all.dropEpisodes {
      ListsHoldDecisions(ds, e, e);
      var d :| d in ds && d.Repoint? && d.episodeId == e;
      ListsHoldDecisions(ds, e, d.twin);
    }
    if e in all.moves {
      ListsHoldDecisions(ds, e, all.moves[e]);
      DecisionsFit(db, targetId, sourceId, sourceSeasons, targetSeasons, sourceEps, targetEps, Move(e, all.moves[e]));
    }
  }

  lemma EpisodeListsComplete(
      db: Tables, targetId: Id, sourceId: Id, sourceSeasons: seq<SeasonRow>, targetSeasons: seq<SeasonRow>,
      sourceEps: map<Id, seq<EpisodeRow>>, targetEps: map<Id, seq<EpisodeRow>>, plan: Lists, e: Id)
    requires SeasonsUnique(db) && RowsRead(db, targetId, sourceId, sourceSeasons, targetSeasons, sourceEps, targetEps)
    requires plan == CollectAll(EMPTY, Decisions(sourceSeasons, SeasonsByNumber(targetSeasons), sourceEps, targetEps))
    requires EpisodeIn(db, e, sourceId) && HasSeasonTwin(db, targetId, db.episodes[e].seasonId)
    ensures e in AllOf(plan).repoints || e in AllOf(plan).moves
  {
    var ds := Decisions(sourceSeasons, SeasonsByNumber(targetSeasons), sourceEps, targetEps);
    var d := EpisodeDecided(db, targetId, sourceId, sourceSeasons, targetSeasons, sourceEps, targetEps, e);
    var owner := if d.Repoint? then d.twin else d.newSeason;
    ListsHoldDecisions(ds, e, owner);
    FlattenedHolds(plan.mediaFileRepoints, e);
    FlattenedHolds(plan.movesByTargetSeason, e);
  }

  /** The lists the planner returns for the rows of a database are the merge plan of that database. */
  lemma PlannerPlans(
      db: Tables, targetId: Id, sourceId: Id, sourceSeasons: seq<SeasonRow>, targetSeasons: seq<SeasonRow>,
      sourceEps: map<Id, seq<EpisodeRow>>, targetEps: map<Id, seq<EpisodeRow>>, plan: Lists)
    requires SeasonsUnique(db) && RowsRead(db, targetId, sourceId, sourceSeasons, targetSeasons, sourceEps, targetEps)
    requires plan == CollectAll(EMPTY, Decisions(sourceSeasons, SeasonsByNumber(targetSeasons), sourceEps, targetEps))
    ensures IsPlan(db, targetId, sourceId, AllOf(plan))
  {
    var all := AllOf(plan);
    forall s
      ensures s in all.transfers <==> s in db.seasons && db.seasons[s].titleId == sourceId && !HasSeasonTwin(db, targetId, s)
      ensures s in all.dropSeasons <==> s in db.seasons && db.seasons[s].titleId == sourceId && HasSeasonTwin(db, targetId, s)
    {
      SeasonListsExact(db, targetId, sourceId, sourceSeasons, targetSeasons, sourceEps, targetEps, plan, s);
    }
    forall e ensures EpisodeTreatedAsPlanned(db, targetId, sourceId, all, e) {
      EpisodeListsFit(db, targetId, sourceId, sourceSeasons, targetSeasons, sourceEps, targetEps, plan, e);
      if EpisodeIn(db, e, sourceId) && db.episodes[e].seasonId in all.dropSeasons {
        EpisodeListsComplete(db, targetId, sourceId, sourceSeasons, targetSeasons, sourceEps, targetEps, plan, e);
      }
    }
    PlanByEpisode(db, targetId, sourceId, all);
  }

  ghost predicate EpisodeTreatedAsPlanned(db: Tables, targetId: Id, sourceId: Id, all: Progress, e: Id) {
    && (e in all.repoints ==> EpisodeIn(db, e, sourceId) && EpisodeTwin(db, targetId, e, all.repoints[e]))
    && (e in all.dropEpisodes <==> e in all.repoints)
    && (e in all.moves ==>
          && EpisodeIn(db, e, sourceId)
          && SeasonTwin(db, targetId, db.episodes[e].seasonId, all.moves[e])
          && !HasEpisodeTwin(db, targetId, e))
    && (EpisodeIn(db, e, sourceId) && db.episodes[e].seasonId in all.dropSeasons ==> e in all.repoints || e in all.moves)
  }

  lemma PlanByEpisode(db: Tables, targetId: Id, sourceId: Id, all: Progress)
    requires all.retagged
    requires forall s {:trigger s in all.transfers} ::
        s in all.transfers <==> s in db.seasons && db.seasons[s].titleId == sourceId && !HasSeasonTwin(db, targetId, s)
    requires forall s {:trigger s in all.dropSeasons} ::
        s in all.dropSeasons <==> s in db.seasons && db.seasons[s].titleId == sourceId && HasSeasonTwin(db, targetId, s)
    requires forall e :: EpisodeTreatedAsPlanned(db, targetId, sourceId, all, e)
    ensures IsPlan(db, targetId, sourceId, all)
  {
    forall e ensures e in all.dropEpisodes <==> e in all.repoints {
      assert EpisodeTreatedAsPlanned(db, targetId, sourceId, all, e);
    }
    forall e | e in all.repoints ensures EpisodeIn(db, e, sourceId) && EpisodeTwin(db, targetId, e, all.repoints[e]) {
      assert EpisodeTreatedAsPlanned(db, targetId, sourceId, all, e);
    }
    forall e | e in all.moves
      ensures EpisodeIn(db, e, sourceId) && SeasonTwin(db, targetId, db.episodes[e].seasonId, all.moves[e])
      ensures !HasEpisodeTwin(db, targetId, e)
    {
      assert EpisodeTreatedAsPlanned(db, targetId, sourceId, all, e);
    }
    forall e | EpisodeIn(db, e, sourceId) && db.episodes[e].seasonId in all.dropSeasons
      ensures e in all.repoints || e in all.moves
    {
      assert EpisodeTreatedAsPlanned(db, targetId, sourceId, all, e);
    }
  }

  /** No id is listed under two owners, so executing the entries in order gives every id the owner it is listed under. */
  ghost predicate OwnersAgree(entries: seq<Entry>) {
    forall i, e :: 0 <= i < |entries| && e in entries[i].ids
      ==> e in Flattened(entries) && Flattened(entries)[e] == entries[i].owner
  }

  lemma PlannerOwnersAgree(
      db: Tables, targetId: Id, sourceId: Id, sourceSeasons: seq<SeasonRow>, targetSeasons: seq<SeasonRow>,
      sourceEps: map<Id, seq<EpisodeRow>>, targetEps: map<Id, seq<EpisodeRow>>, plan: Lists)
    requires SeasonsUnique(db) && EpisodesUnique(db)
    requires RowsRead(db, targetId, sourceId, sourceSeasons, targetSeasons, sourceEps, targetEps)
    requires plan == CollectAll(EMPTY, Decisions(sourceSeasons, SeasonsByNumber(targetSeasons), sourceEps, targetEps))
    ensures OwnersAgree(plan.mediaFileRepoints) && OwnersAgree(plan.movesByTargetSeason)
  {
    var ds := Decisions(sourceSeasons, SeasonsByNumber(targetSeasons), sourceEps, targetEps);
    var entries := plan.mediaFileRepoints;
    forall i, e | 0 <= i < |entries| && e in entries[i].ids
      ensures e in Flattened(entries) && Flattened(entries)[e] == entries[i].owner
    {
      assert Holds(entries, entries[i].owner, e);
      FlattenedHolds(entries, e);
      var o, p := entries[i].owner, Flattened(entries)[e];
      ListsHoldDecisions(ds, e, o);
      ListsHoldDecisions(ds, e, p);
      DecisionsFit(db, targetId, sourceId, sourceSeasons, targetSeasons, sourceEps, targetEps, Repoint(e, o));
      DecisionsFit(db, targetId, sourceId, sourceSeasons, targetSeasons, sourceEps, targetEps, Repoint(e, p));
      EpisodeIdentity(db, targetId, o, p);
    }
    var moves := plan.movesByTargetSeason;
    forall i, e | 0 <= i < |moves| && e in moves[i].ids
      ensures e in Flattened(moves) && Flattened(moves)[e] == moves[i].owner
    {
      assert Holds(moves, moves[i].owner, e);
      FlattenedHolds(moves, e);
      var o, p := moves[i].owner, Flattened(moves)[e];
      ListsHoldDecisions(ds, e, o);
      ListsHoldDecisions(ds, e, p);
      DecisionsFit(db, targetId, sourceId, sourceSeasons, targetSeasons, sourceEps, targetEps, Move(e, o));
      DecisionsFit(db, targetId, sourceId, sourceSeasons, targetSeasons, sourceEps, targetEps, Move(e, p));
      assert db.seasons[o] == db.seasons[p];
    }
  }

  lemma FlattenedNext(entries: seq<Entry>, i: nat)
    requires i < |entries|
    ensures Flattened(entries[..i + 1]) == Flattened(entries[..i]) + Owned(ToSet(entries[i].ids), entries[i].owner)
  {
    assert entries[..i + 1][..i] == entries[..i];
  }
}
