/**
 The download table as workers see it: every guarded statement is one atomic step, and a run is any sequence of steps by
 any number of workers.
 */
module Downloads {
  import opened Counting
  import opened Sums
  import opened Text

  datatype Status = Pending | Processing | Completed | Failed | Cancelled

  datatype Row = Row(profileId: Id, mediaFileId: Id, status: Status, progressPercent: int, sizeBytes: Option<int>, errorText: Option<string>)

  type Rows = map<Id, Row>

  datatype Step =
    | Insert(id: Id, profileId: Id, mediaFileId: Id)
    | Claim(id: Id, profileId: Id, maxRunning: int)
    | Complete(id: Id, size: int)
    | Fail(id: Id, error: string)
    | Cancel(id: Id)
    | Requeue(id: Id)
    | Release(id: Id)
    | Delete(id: Id)

  predicate Active(status: Status) {
    status == Pending || status == Processing
  }

  /** The downloads of a profile that hold its running slots. */
  function Running(rows: Rows, profileId: Id): set<Id> {
    set id | id in rows && rows[id].profileId == profileId && rows[id].status == Processing
  }

  /** The rows of the `WHERE` clause: those the statement changes. */
  predicate Hits(rows: Rows, step: Step) {
    match step
    case Insert(id, _, _) => id !in rows
    case Claim(id, profileId, maxRunning) => id in rows && rows[id].status == Pending && |Running(rows, profileId)| < maxRunning
    case Complete(id, _) => id in rows && rows[id].status == Processing
    case Fail(id, _) => id in rows && Active(rows[id].status)
    case Cancel(id) => id in rows && rows[id].status != Completed
    case Requeue(id) => id in rows && Active(rows[id].status)
    case Release(id) => id in rows && rows[id].status == Processing
    case Delete(id) => id in rows
  }

  function Next(rows: Rows, step: Step): Rows {
    if !Hits(rows, step) then rows
    else
      match step
      case Insert(id, profileId, mediaFileId) => rows[id := Row(profileId, mediaFileId, Pending, 0, None, None)]
      case Claim(id, _, _) => rows[id := rows[id].(status := Processing)]
      case Complete(id, size) => rows[id := rows[id].(status := Completed, progressPercent := 100, sizeBytes := Some(size))]
      case Fail(id, error) => rows[id := rows[id].(status := Failed, errorText := Some(error))]
      case Cancel(id) => rows[id := rows[id].(status := Cancelled)]
      case Requeue(id) => rows[id := rows[id].(status := Pending, errorText := None)]
      case Release(id) => rows[id := rows[id].(status := Pending)]
      case Delete(id) => rows - {id}
  }

  function After(rows: Rows, steps: seq<Step>): Rows {
    if steps == [] then rows else Next(After(rows, steps[..|steps| - 1]), steps[|steps| - 1])
  }

  // ----- what a step does to a row

  /** The row at `id` before and after a step, while it is there. */
  predicate Stays(rows: Rows, step: Step, id: Id) {
    id in rows && id in Next(rows, step)
  }

  /** Only the named row changes, and never its owner or its media file. */
  lemma OtherRowsStay(rows: Rows, step: Step, id: Id)
    ensures id != step.id ==> (id in Next(rows, step) <==> id in rows)
    ensures Stays(rows, step, id) && id != step.id ==> Next(rows, step)[id] == rows[id]
    ensures Stays(rows, step, id) ==>
      Next(rows, step)[id].profileId == rows[id].profileId && Next(rows, step)[id].mediaFileId == rows[id].mediaFileId
  {
  }

  /** A row appears waiting, by an insertion under an unused id, and disappears by a deletion. */
  lemma RowsComeAndGo(rows: Rows, step: Step, id: Id)
    ensures id !in rows && id in Next(rows, step) <==> step.Insert? && step.id == id && id !in rows
    ensures id !in rows && id in Next(rows, step) ==>
      Next(rows, step)[id] == Row(step.profileId, step.mediaFileId, Pending, 0, None, None)
    ensures id in rows && id !in Next(rows, step) <==> step == Delete(id) && id in rows
  {
  }

  /** A row starts exactly by a claim, from waiting, while fewer rows of the named profile run than the claim allows. */
  lemma StartsIff(rows: Rows, step: Step, id: Id)
    requires Stays(rows, step, id)
    ensures rows[id].status != Processing && Next(rows, step)[id].status == Processing <==>
      && step.Claim? && step.id == id && rows[id].status == Pending
      && |set other | other in rows && rows[other].profileId == step.profileId && rows[other].status == Processing| < step.maxRunning
    ensures step.Claim? ==> Next(rows, step)[id] == rows[id].(status := Next(rows, step)[id].status)
  {
    if step.Claim? {
      assert Running(rows, step.profileId)
          == set other | other in rows && rows[other].profileId == step.profileId && rows[other].status == Processing;
    }
  }

  /** A row completes exactly by a completion, from processing; then it is at 100 percent and holds the size reported. */
  lemma CompletesIff(rows: Rows, step: Step, id: Id)
    requires Stays(rows, step, id)
    ensures rows[id].status != Completed && Next(rows, step)[id].status == Completed <==>
      step.Complete? && step.id == id && rows[id].status == Processing
    ensures rows[id].status != Completed && Next(rows, step)[id].status == Completed ==>
      Next(rows, step)[id] == rows[id].(status := Completed, progressPercent := 100, sizeBytes := Some(step.size))
    ensures !step.Complete? ==>
      Next(rows, step)[id].progressPercent == rows[id].progressPercent && Next(rows, step)[id].sizeBytes == rows[id].sizeBytes
  {
  }

  /** A row fails exactly by a failure, from waiting or processing, and takes the error; a cancelled or completed one does not. */
  lemma FailsIff(rows: Rows, step: Step, id: Id)
    requires Stays(rows, step, id)
    ensures rows[id].status != Failed && Next(rows, step)[id].status == Failed <==>
      step.Fail? && step.id == id && (rows[id].status == Pending || rows[id].status == Processing)
    ensures step.Fail? && step.id == id && (rows[id].status == Pending || rows[id].status == Processing) ==>
      Next(rows, step)[id].errorText == Some(step.error)
    ensures Next(rows, step)[id].errorText != rows[id].errorText ==> step.Fail? || step.Requeue?
  {
  }

  /** A row is cancelled exactly by a cancellation, from anything but completed. */
  lemma CancelsIff(rows: Rows, step: Step, id: Id)
    requires Stays(rows, step, id)
    ensures rows[id].status != Cancelled && Next(rows, step)[id].status == Cancelled <==>
      step == Cancel(id) && rows[id].status != Cancelled && rows[id].status != Completed
  {
  }

  /** A row waits again exactly by a requeue or a release, from processing; the requeue of an active row clears its error. */
  lemma WaitsAgainIff(rows: Rows, step: Step, id: Id)
    requires Stays(rows, step, id)
    ensures rows[id].status != Pending && Next(rows, step)[id].status == Pending <==>
      (step == Requeue(id) || step == Release(id)) && rows[id].status == Processing
    ensures step == Requeue(id) && (rows[id].status == Pending || rows[id].status == Processing) ==>
      Next(rows, step)[id] == rows[id].(status := Pending, errorText := None)
    ensures step == Release(id) && rows[id].status == Processing ==> Next(rows, step)[id] == rows[id].(status := Pending)
  {
  }

  /** After a requeue or a release the download can start again: the next claim does so if a slot is free. */
  lemma HandedBackCanStart(rows: Rows, step: Step, id: Id, profileId: Id, maxRunning: int)
    requires (step == Requeue(id) || step == Release(id)) && id in rows && rows[id].status == Processing
    requires var after := Next(rows, step);
      |set other | other in after && after[other].profileId == profileId && after[other].status == Processing| < maxRunning
    ensures var after := Next(rows, step);
      id in after && Stays(after, Claim(id, profileId, maxRunning), id)
      && Next(after, Claim(id, profileId, maxRunning))[id].status == Processing
  {
    WaitsAgainIff(rows, step, id);
    StartsIff(Next(rows, step), Claim(id, profileId, maxRunning), id);
  }

  // ----- running slots

  predicate WithinSlots(rows: Rows, max: int, profileId: Id) {
    |Running(rows, profileId)| <= max
  }

  /** A claim that names the row's own profile, and at most `max` slots. */
  predicate ClaimFits(rows: Rows, step: Step, max: int) {
    step.Claim? ==> step.maxRunning <= max && (step.id in rows ==> rows[step.id].profileId == step.profileId)
  }

  predicate ClaimsFit(rows: Rows, steps: seq<Step>, max: int) {
    steps == [] ||
    (ClaimsFit(rows, steps[..|steps| - 1], max) && ClaimFits(After(rows, steps[..|steps| - 1]), steps[|steps| - 1], max))
  }

  /** Which slots a step takes and frees. */
  lemma StepMovesSlots(rows: Rows, step: Step, profileId: Id)
    ensures Running(Next(rows, step), profileId) <= Running(rows, profileId) + {step.id}
    ensures step.id in Running(Next(rows, step), profileId) && step.id !in Running(rows, profileId) ==>
      step.Claim? && Hits(rows, step) && rows[step.id].profileId == profileId
  {
  }

  lemma StepKeepsSlots(rows: Rows, step: Step, max: int, profileId: Id)
    requires WithinSlots(rows, max, profileId) && ClaimFits(rows, step, max)
    ensures WithinSlots(Next(rows, step), max, profileId)
  {
    var before, after := Running(rows, profileId), Running(Next(rows, step), profileId);
    StepMovesSlots(rows, step, profileId);
    if step.id in after && step.id !in before {
      SubsetIsSmaller(after, before + {step.id});
      assert |before + {step.id}| == |before| + 1;
    } else {
      assert after <= before;
      SubsetIsSmaller(after, before);
    }
  }

  /** Under any interleaving of claims that fit, no profile ever holds more than `max` slots. */
  lemma {:induction false} SlotsAreBounded(rows: Rows, steps: seq<Step>, max: int, profileId: Id)
    requires WithinSlots(rows, max, profileId) && ClaimsFit(rows, steps, max)
    ensures forall n :: 0 <= n <= |steps| ==> WithinSlots(After(rows, steps[..n]), max, profileId)
  {
    assert steps[..|steps|] == steps;
    if steps != [] {
      var rest, last := steps[..|steps| - 1], steps[|steps| - 1];
      SlotsAreBounded(rows, rest, max, profileId);
      assert rest[..|rest|] == rest;
      StepKeepsSlots(After(rows, rest), last, max, profileId);
      forall n | 0 <= n <= |steps| ensures WithinSlots(After(rows, steps[..n]), max, profileId) {
        if n < |steps| { assert rest[..n] == steps[..n]; }
      }
    }
  }

  /** Whatever profile it names, a successful claim keeps the row's own profile within `max` exactly when a slot was free there. */
  lemma ClaimKeepsSlotsIff(rows: Rows, id: Id, profileId: Id, maxRunning: int, max: int)
    requires Hits(rows, Claim(id, profileId, maxRunning))
    ensures WithinSlots(Next(rows, Claim(id, profileId, maxRunning)), max, rows[id].profileId)
      <==> |Running(rows, rows[id].profileId)| < max
  {
    var own := rows[id].profileId;
    assert Running(Next(rows, Claim(id, profileId, maxRunning)), own) == Running(rows, own) + {id};
  }

  /** A claim checks the slots of the profile it names: naming another profile can overfill the row's own. */
  lemma ForeignClaimOverfills(a: Id, b: Id, media: Id)
    requires a != b
    ensures var rows := map["1" := Row(a, media, Processing, 0, None, None), "2" := Row(a, media, Pending, 0, None, None)];
      WithinSlots(rows, 1, a) && !WithinSlots(Next(rows, Claim("2", b, 1)), 1, a)
  {
    var rows := map["1" := Row(a, media, Processing, 0, None, None), "2" := Row(a, media, Pending, 0, None, None)];
    assert Running(rows, a) == {"1"} && Running(rows, b) == {};
    assert Running(Next(rows, Claim("2", b, 1)), a) == {"1", "2"};
  }

  // ----- terminal states

  predicate Terminal(status: Status) {
    !Active(status)
  }

  predicate Settled(before: Row, after: Row) {
    && (before.status == Completed ==> after == before)
    && (Terminal(before.status) ==> Terminal(after.status) && (after.status == before.status || after.status == Cancelled))
  }

  /** Completed rows never change; failed and cancelled rows never become pending or processing again. */
  lemma {:induction false} TerminalIsForGood(rows: Rows, steps: seq<Step>, id: Id)
    requires id in rows && Delete(id) !in steps
    ensures id in After(rows, steps) && Settled(rows[id], After(rows, steps)[id])
  {
    if steps != [] {
      var rest, last := steps[..|steps| - 1], steps[|steps| - 1];
      assert last in steps && forall step :: step in rest ==> step in steps;
      TerminalIsForGood(rows, rest, id);
    }
  }

  /** Steps of the run that finished the download: those whose caller was told so. */
  function Completions(rows: Rows, steps: seq<Step>, id: Id): nat {
    if steps == [] then 0
    else
      var rest, last := steps[..|steps| - 1], steps[|steps| - 1];
      Completions(rows, rest, id) + if last.Complete? && last.id == id && Hits(After(rows, rest), last) then 1 else 0
  }

  function Insertions(rows: Rows, steps: seq<Step>, id: Id): nat {
    if steps == [] then 0
    else
      var rest, last := steps[..|steps| - 1], steps[|steps| - 1];
      Insertions(rows, rest, id) + if last.Insert? && last.id == id && Hits(After(rows, rest), last) then 1 else 0
  }

  /** One while the row can still complete. */
  function Chances(rows: Rows, id: Id): nat {
    if id in rows && Active(rows[id].status) then 1 else 0
  }

  lemma StepSpendsChances(rows: Rows, step: Step, id: Id)
    ensures Chances(Next(rows, step), id) + (if step.Complete? && step.id == id && Hits(rows, step) then 1 else 0)
      <= Chances(rows, id) + if step.Insert? && step.id == id && Hits(rows, step) then 1 else 0
  {
  }

  /** A download completes at most once: every completion uses up the chance its insertion gave. */
  lemma {:induction false} CompletesAtMostOnce(rows: Rows, steps: seq<Step>, id: Id)
    ensures Completions(rows, steps, id) + Chances(After(rows, steps), id) <= Chances(rows, id) + Insertions(rows, steps, id)
  {
    if steps != [] {
      var rest, last := steps[..|steps| - 1], steps[|steps| - 1];
      CompletesAtMostOnce(rows, rest, id);
      StepSpendsChances(After(rows, rest), last, id);
    }
  }

  // ----- storage

  function SizeOf(row: Row): int {
    if row.sizeBytes.Some? then row.sizeBytes.value else 0
  }

  predicate Stored(row: Row, profileId: Id) {
    row.profileId == profileId && row.status == Completed
  }

  function StoredSizes(rows: Rows, profileId: Id): map<Id, int> {
    map id | id in rows && Stored(rows[id], profileId) :: SizeOf(rows[id])
  }

  /** `storageUsedByProfile`. */
  ghost function StorageUsed(rows: Rows, profileId: Id): int {
    Sum(StoredSizes(rows, profileId))
  }

  /** A row adds its size if it is a completed one of the profile and has a size; any other row adds nothing. */
  lemma RowAddsItsSize(rows: Rows, profileId: Id, id: Id)
    requires id in rows
    ensures StorageUsed(map[], profileId) == 0
    ensures StorageUsed(rows, profileId) == StorageUsed(rows - {id}, profileId)
      + match rows[id].sizeBytes
        case Some(size) => if rows[id].profileId == profileId && rows[id].status == Completed then size else 0
        case None => 0
  {
    var all, rest := StoredSizes(rows, profileId), StoredSizes(rows - {id}, profileId);
    assert StoredSizes(map[], profileId) == map[];
    assert rest == all - {id};
    if id in all { SumAt(all, id); } else { assert rest == all; }
  }

  /** Bytes a step adds to a profile's storage, and bytes it frees. */
  function Gained(rows: Rows, step: Step, profileId: Id): int {
    if step.Complete? && Hits(rows, step) && rows[step.id].profileId == profileId then step.size else 0
  }

  function Freed(rows: Rows, step: Step, profileId: Id): int {
    if step.Delete? && Hits(rows, step) && Stored(rows[step.id], profileId) then SizeOf(rows[step.id]) else 0
  }

  lemma StepMovesStorage(rows: Rows, step: Step, profileId: Id)
    ensures StorageUsed(Next(rows, step), profileId)
      == StorageUsed(rows, profileId) + Gained(rows, step, profileId) - Freed(rows, step, profileId)
  {
    var before, after := StoredSizes(rows, profileId), StoredSizes(Next(rows, step), profileId);
    if Gained(rows, step, profileId) != 0 || (step.Complete? && Hits(rows, step) && rows[step.id].profileId == profileId) {
      SumAt(after, step.id);
      assert after - {step.id} == before;
    } else if step.Delete? && Hits(rows, step) && Stored(rows[step.id], profileId) {
      SumAt(before, step.id);
      assert before - {step.id} == after;
    } else {
      assert after == before;
    }
  }

  function GainedBy(rows: Rows, steps: seq<Step>, profileId: Id): int {
    if steps == [] then 0
    else
      var rest := steps[..|steps| - 1];
      GainedBy(rows, rest, profileId) + Gained(After(rows, rest), steps[|steps| - 1], profileId)
  }

  function FreedBy(rows: Rows, steps: seq<Step>, profileId: Id): int {
    if steps == [] then 0
    else
      var rest := steps[..|steps| - 1];
      FreedBy(rows, rest, profileId) + Freed(After(rows, rest), steps[|steps| - 1], profileId)
  }

  /** Storage is conserved: what a profile uses is what completions added less what deletions of completed rows freed. */
  lemma {:induction false} StorageIsConserved(rows: Rows, steps: seq<Step>, profileId: Id)
    ensures StorageUsed(After(rows, steps), profileId)
      == StorageUsed(rows, profileId) + GainedBy(rows, steps, profileId) - FreedBy(rows, steps, profileId)
  {
    if steps != [] {
      StorageIsConserved(rows, steps[..|steps| - 1], profileId);
      StepMovesStorage(After(rows, steps[..|steps| - 1]), steps[|steps| - 1], profileId);
    }
  }

  /** Every completed row holds the size the one worker that finished it reported. */
  lemma {:induction false} StoredSizeWasReported(rows: Rows, steps: seq<Step>, id: Id)
    requires id in After(rows, steps) && After(rows, steps)[id].status == Completed
    requires !(id in rows && rows[id].status == Completed)
    ensures exists n :: 0 <= n < |steps| && Finishes(rows, steps, n, id, After(rows, steps)[id].sizeBytes)
  {
    var rest, last := steps[..|steps| - 1], steps[|steps| - 1];
    var mid := After(rows, rest);
    if id in mid && mid[id].status == Completed {
      StoredSizeWasReported(rows, rest, id);
      var n :| 0 <= n < |rest| && Finishes(rows, rest, n, id, mid[id].sizeBytes);
      assert rest[..n] == steps[..n];
      assert Finishes(rows, steps, n, id, After(rows, steps)[id].sizeBytes);
    } else {
      assert Finishes(rows, steps, |steps| - 1, id, After(rows, steps)[id].sizeBytes);
    }
  }

  predicate Finishes(rows: Rows, steps: seq<Step>, n: int, id: Id, size: Option<int>)
    requires 0 <= n < |steps|
  {
    steps[n].Complete? && steps[n].id == id && size == Some(steps[n].size) && Hits(After(rows, steps[..n]), steps[n])
  }

  // ----- the repository

  class DownloadsRepository {
    var rows: Rows

    constructor (rows: Rows)
      ensures this.rows == rows
    {
      this.rows := rows;
    }

    method Insert(id: Id, profileId: Id, mediaFileId: Id) returns (inserted: bool)
      modifies this
      ensures inserted <==> id !in old(rows)
      ensures rows == Next(old(rows), Step.Insert(id, profileId, mediaFileId))
      ensures inserted <==> Hits(old(rows), Step.Insert(id, profileId, mediaFileId))
    {
      if id in rows { return false; }
      rows := rows[id := Row(profileId, mediaFileId, Pending, 0, None, None)];
      return true;
    }

    /** `claimForProcessing`: one guarded step, which counts the busy slots of the named profile before it starts the row. */
    method ClaimForProcessing(id: Id, profileId: Id, maxRunning: int) returns (claimed: bool)
      modifies this
      ensures claimed ==> id in old(rows) && old(rows)[id].status == Pending && id in rows && rows[id].status == Processing
      ensures rows == Next(old(rows), Claim(id, profileId, maxRunning))
      ensures claimed <==> Hits(old(rows), Claim(id, profileId, maxRunning))
    {
      var running := CountProcessingByProfile(profileId);
      if id !in rows || rows[id].status != Pending || running >= maxRunning { return false; }
      rows := rows[id := rows[id].(status := Processing)];
      return true;
    }

    method CountProcessingByProfile(profileId: Id) returns (count: nat)
      ensures count == |Running(rows, profileId)|
      ensures count == |set id | id in rows && rows[id].profileId == profileId && rows[id].status == Processing|
    {
      var running := set id | id in rows && rows[id].profileId == profileId && rows[id].status == Processing;
      count := |running|;
    }

    method CompleteProcessing(id: Id, sizeBytes: int) returns (completed: bool)
      modifies this
      ensures completed <==> id in old(rows) && old(rows)[id].status == Processing
      ensures completed ==> id in rows && rows[id].status == Completed && rows[id].sizeBytes == Some(sizeBytes)
      ensures !completed ==> rows == old(rows)
      ensures rows == Next(old(rows), Complete(id, sizeBytes))
      ensures completed <==> Hits(old(rows), Complete(id, sizeBytes))
    {
      if id !in rows || rows[id].status != Processing { return false; }
      rows := rows[id := rows[id].(status := Completed, progressPercent := 100, sizeBytes := Some(sizeBytes))];
      return true;
    }

    method FailIfActive(id: Id, error: string) returns (failed: bool)
      modifies this
      ensures failed <==> id in old(rows) && old(rows)[id].status in {Pending, Processing}
      ensures failed ==> id in rows && rows[id].status == Failed && rows[id].errorText == Some(error)
      ensures !failed ==> rows == old(rows)
      ensures rows == Next(old(rows), Fail(id, error))
      ensures failed <==> Hits(old(rows), Fail(id, error))
    {
      if id !in rows || rows[id].status !in {Pending, Processing} { return false; }
      rows := rows[id := rows[id].(status := Failed, errorText := Some(error))];
      return true;
    }

    method CancelIfNotCompleted(id: Id) returns (row: Option<Row>)
      modifies this
      ensures row.Some? <==> id in old(rows) && old(rows)[id].status != Completed
      ensures row.Some? ==> id in rows && rows[id].status == Cancelled
      ensures row.None? ==> rows == old(rows)
      ensures rows == Next(old(rows), Cancel(id))
      ensures row == if Hits(old(rows), Cancel(id)) then Some(rows[id]) else None
    {
      if id !in rows || rows[id].status == Completed { return None; }
      rows := rows[id := rows[id].(status := Cancelled)];
      return Some(rows[id]);
    }

    method RequeueIfActive(id: Id) returns (requeued: bool)
      modifies this
      ensures requeued <==> id in old(rows) && old(rows)[id].status in {Pending, Processing}
      ensures requeued ==> id in rows && rows[id].status == Pending && rows[id].errorText == None
      ensures !requeued ==> rows == old(rows)
      ensures rows == Next(old(rows), Requeue(id))
      ensures requeued <==> Hits(old(rows), Requeue(id))
    {
      if id !in rows || rows[id].status !in {Pending, Processing} { return false; }
      rows := rows[id := rows[id].(status := Pending, errorText := None)];
      return true;
    }

    method ReleaseClaim(id: Id)
      modifies this
      ensures id in old(rows) && old(rows)[id].status == Processing ==> id in rows && rows[id].status == Pending
      ensures rows == Next(old(rows), Release(id))
    {
      if id in rows && rows[id].status == Processing {
        rows := rows[id := rows[id].(status := Pending)];
      }
    }

    method DeleteRow(id: Id)
      modifies this
      ensures rows == old(rows) - {id} && rows == Next(old(rows), Delete(id))
    {
      rows := rows - {id};
    }

    /** `storageUsedByProfile`. */
    method StorageUsedByProfile(profileId: Id) returns (used: int)
      ensures used == StorageUsed(rows, profileId)
    {
      used := 0;
      var sizes := StoredSizes(rows, profileId);
      var left := sizes.Keys;
      assert sizes - left == map[];
      while left != {}
        invariant left <= sizes.Keys && used == Sum(sizes - left)
        decreases |left|
      {
        var id :| id in left;
        SumAt(sizes - (left - {id}), id);
        assert sizes - (left - {id}) - {id} == sizes - left;
        used := used + sizes[id];
        left := left - {id};
      }
      assert sizes - {} == sizes;
    }
  }
}
