/**
 The recovery journal of a mutation run. Every write may be cut short by a crash, so each one leaves two disks behind
 in `history`: the torn one and the finished one. A crash hands any disk of the history to the next run.
 */
module CrashRecovery {
  import opened Folding
  import opened Text

  type File = string
  type Originals = map<File, string>

  /** The recovery file: missing, cut short while written, or naming the originals of the files in `Saved`. */
  datatype Record = Absent | Unreadable | Saved(pid: int, originals: Originals)

  datatype Disk = Disk(files: map<File, string>, record: Record)

  datatype Outcome = Outcome(passed: bool, timedOut: bool)

  datatype Verdict = Survived | Killed(timedOut: bool)

  /**
   What goes wrong while a mutant is judged: the write of the record, the write of the mutant, the restoring write, the
   removal of the record, and the write and the removal of the exit hook. A write that throws leaves the given text.
   */
  datatype Faults = Faults(
    record: bool, mutant: Option<string>, restore: Option<string>, removal: bool, exit: Option<string>, exitRemoval: bool)

  const NO_FAULTS := Faults(false, None, None, false, None, false)

  /** Nothing throws before the judgement ends, so the exit hook is not reached. */
  predicate Smooth(faults: Faults) {
    !faults.record && faults.mutant.None? && faults.restore.None? && !faults.removal
  }

  /** One call of `judgeMutant`: the file, its mutated text, what its covering tests report, and what throws. */
  datatype Job = Job(subject: File, mutated: string, outcomes: seq<Outcome>, faults: Faults)

  /** How a claim ends: it goes through, another run is active, or a restoring write throws. */
  datatype Claim = Claimed | Refused | Failed

  /** Writes that throw, with what each leaves in its file. */
  type Failing = map<File, string>

  predicate NoneThrows(files: set<File>, failing: Failing) {
    forall file :: file in files ==> file !in failing
  }

  predicate InRecord(originals: Originals, record: Record, file: File)
    requires file in originals
  {
    record.Saved? && file in record.originals && record.originals[file] == originals[file]
  }

  /** Every file is its original or its original is in the record, and the record names nothing but originals. */
  predicate Sound(originals: Originals, disk: Disk) {
    && disk.files.Keys == originals.Keys
    && (forall file :: file in originals ==> disk.files[file] == originals[file] || InRecord(originals, disk.record, file))
    && (disk.record.Saved? ==> forall file :: file in disk.record.originals ==>
         file in originals && disk.record.originals[file] == originals[file])
  }

  predicate AllSound(originals: Originals, disks: seq<Disk>) {
    forall disk :: disk in disks ==> Sound(originals, disk)
  }

  /** A disk without a record is sound only when nothing is mutated. */
  lemma WithoutRecord(originals: Originals, files: map<File, string>)
    requires files.Keys == originals.Keys
    ensures Sound(originals, Disk(files, Absent)) <==> files == originals
    ensures Sound(originals, Disk(files, Unreadable)) <==> files == originals
  {
  }

  /** While the record names a file, that file may hold anything. */
  lemma NamedFileMayChange(originals: Originals, disk: Disk, file: File, content: string)
    requires Sound(originals, disk) && file in originals && InRecord(originals, disk.record, file)
    ensures Sound(originals, Disk(disk.files[file := content], disk.record))
  {
  }

  /** The files with the saved text of the `done` ones written back. */
  function WrittenBack(files: map<File, string>, saved: Originals, done: set<File>): map<File, string> {
    map file | file in files :: if file in done && file in saved then saved[file] else files[file]
  }

  /** A restoring loop that stopped: the `done` files are back, `thrown` holds what its write left, the rest is as before. */
  predicate Halted(
      before: map<File, string>, now: map<File, string>, saved: Originals, failing: Failing, done: set<File>, thrown: File)
  {
    && done <= saved.Keys && NoneThrows(done, failing) && thrown in saved && thrown in failing && thrown in before
    && now == WrittenBack(before, saved, done)[thrown := failing[thrown]]
  }

  /** What was original before, or is now: every file the loop did not get to, and what the throwing write left. */
  predicate HaltedOriginal(
      originals: Originals, before: map<File, string>, failing: Failing, done: set<File>, thrown: File)
    requires thrown in failing && thrown in originals
  {
    && failing[thrown] == originals[thrown]
    && forall file :: file in before && file in originals && file !in done && file != thrown ==> before[file] == originals[file]
  }

  lemma HaltedIsOriginalIff(
      originals: Originals, before: map<File, string>, now: map<File, string>, saved: Originals, failing: Failing, done: set<File>,
      thrown: File)
    requires Halted(before, now, saved, failing, done, thrown) && before.Keys == originals.Keys
    requires forall file :: file in saved ==> file in originals && saved[file] == originals[file]
    ensures now == originals <==> HaltedOriginal(originals, before, failing, done, thrown)
  {
    if now == originals {
      forall file | file in before && file !in done && file != thrown ensures before[file] == originals[file] {
        assert now[file] == before[file];
      }
    }
  }

  /** `now` differs from `before` at most in the text of saved files. */
  predicate OnlyTouches(before: Disk, now: Disk, saved: Originals) {
    && now.record == before.record && now.files.Keys == before.files.Keys
    && forall file :: file in before.files && file !in saved ==> now.files[file] == before.files[file]
  }

  /** All disks since `was` differ from `before` only so. */
  predicate TouchedSince(before: Disk, was: seq<Disk>, now: seq<Disk>, saved: Originals) {
    was <= now && forall k :: |was| <= k < |now| ==> OnlyTouches(before, now[k], saved)
  }

  /** The loop wrote the `done` files back. Folded until `Key(true)` is mentioned. */
  ghost predicate BackSoFar(
      before: Disk, was: seq<Disk>, now: Disk, disks: seq<Disk>, saved: Originals, done: set<File>)
  {
    forall u {:trigger Key(u)} :: Key(u) ==>
      now == Disk(WrittenBack(before.files, saved, done), before.record) && TouchedSince(before, was, disks, saved)
  }

  lemma TouchedTwice(before: Disk, was: seq<Disk>, now: seq<Disk>, saved: Originals, torn: Disk, written: Disk)
    requires TouchedSince(before, was, now, saved) && OnlyTouches(before, torn, saved) && OnlyTouches(before, written, saved)
    ensures TouchedSince(before, was, now + [torn, written], saved)
  {
  }

  lemma WriteTouches(before: Disk, now: Disk, saved: Originals, file: File, content: string)
    requires OnlyTouches(before, now, saved) && file in saved && file in now.files
    ensures OnlyTouches(before, Disk(now.files[file := content], now.record), saved)
  {
  }

  lemma OneMoreBack(files: map<File, string>, saved: Originals, done: set<File>, file: File)
    requires file in saved && file in files && file !in done
    ensures WrittenBack(files, saved, done)[file := saved[file]] == WrittenBack(files, saved, done + {file})
  {
  }

  lemma NothingBack(before: Disk, disks: seq<Disk>, saved: Originals)
    ensures BackSoFar(before, disks, before, disks, saved, {})
  {
    assert WrittenBack(before.files, saved, {}) == before.files;
  }

  lemma AllBack(before: Disk, was: seq<Disk>, now: Disk, disks: seq<Disk>, saved: Originals)
    requires BackSoFar(before, was, now, disks, saved, saved.Keys)
    ensures now.files == WrittenBack(before.files, saved, saved.Keys) && TouchedSince(before, was, disks, saved)
    ensures now.record == before.record
  {
    assert Key(true);
  }

  lemma WrittenTouches(before: Disk, saved: Originals, done: set<File>)
    ensures OnlyTouches(before, Disk(WrittenBack(before.files, saved, done), before.record), saved)
  {
  }

  /** While the record names the saved files, touching them keeps the disk sound. */
  lemma TouchedIsSound(originals: Originals, before: Disk, now: Disk, saved: Originals)
    requires Sound(originals, before) && OnlyTouches(before, now, saved)
    requires forall file :: file in saved ==> file in originals && InRecord(originals, before.record, file)
    ensures Sound(originals, now)
  {
  }

  lemma TouchedAreSound(originals: Originals, before: Disk, now: seq<Disk>, was: seq<Disk>, saved: Originals)
    requires Sound(originals, before) && AllSound(originals, was) && TouchedSince(before, was, now, saved)
    requires forall file :: file in saved ==> file in originals && InRecord(originals, before.record, file)
    ensures AllSound(originals, now)
  {
    forall k | 0 <= k < |now| ensures Sound(originals, now[k]) {
      if k < |was| {
        assert now[k] == was[k] && was[k] in was;
      } else {
        TouchedIsSound(originals, before, now[k], saved);
      }
    }
  }

  /** With everything the record names written back, every file is original. */
  lemma RestoredIsOriginal(originals: Originals, before: Disk, now: map<File, string>, saved: Originals)
    requires Sound(originals, before) && now == WrittenBack(before.files, saved, saved.Keys)
    requires forall file :: file in saved ==> file in originals && saved[file] == originals[file]
    requires forall file :: file in originals && file !in saved ==> before.files[file] == originals[file]
    ensures now == originals
  {
  }

  /** The record names what is pending, and nothing else is mutated. */
  predicate Restorable(originals: Originals, disk: Disk, pending: Originals) {
    && Sound(originals, disk)
    && (forall file :: file in pending ==>
          file in originals && pending[file] == originals[file] && InRecord(originals, disk.record, file))
    && (forall file :: file in originals && file !in pending ==> disk.files[file] == originals[file])
  }

  lemma RestoredIsSound(originals: Originals, before: Disk, now: Disk, saved: Originals)
    requires Restorable(originals, before, saved) && now.files == WrittenBack(before.files, saved, saved.Keys)
    requires now.record == before.record || now.record == Absent
    ensures now.files == originals && Sound(originals, now)
  {
    RestoredIsOriginal(originals, before, now.files, saved);
  }

  /** Since `was` no disk has had a readable record. */
  predicate Unrecorded(originals: Originals, was: seq<Disk>, now: seq<Disk>) {
    was <= now && forall k :: |was| <= k < |now| ==> !now[k].record.Saved? && now[k].files.Keys == originals.Keys
  }

  function Throwing(job: Job): Failing {
    if job.faults.exit.Some? then map[job.subject := job.faults.exit.value] else map[]
  }

  lemma TouchedUnrecorded(
      originals: Originals, was: seq<Disk>, mid: seq<Disk>, now: seq<Disk>, before: Disk, saved: Originals)
    requires Unrecorded(originals, was, mid) && TouchedSince(before, mid, now, saved)
    requires !before.record.Saved? && before.files.Keys == originals.Keys
    ensures Unrecorded(originals, was, now)
  {
    forall k | |was| <= k < |now| ensures !now[k].record.Saved? && now[k].files.Keys == originals.Keys {
      if k < |mid| { assert now[k] == mid[k]; }
    }
  }

  lemma OneMoreUnrecorded(originals: Originals, was: seq<Disk>, now: seq<Disk>)
    requires now != [] && Unrecorded(originals, was, now[..|now| - 1])
    requires var last := now[|now| - 1]; !last.record.Saved? && last.files.Keys == originals.Keys
    ensures Unrecorded(originals, was, now)
  {
    forall k | |was| <= k < |now| ensures !now[k].record.Saved? && now[k].files.Keys == originals.Keys {
      if k < |now| - 1 { assert now[k] == now[..|now| - 1][k]; }
    }
  }

  lemma ExitOnIntactFiles(originals: Originals, now: Disk, job: Job, source: string, restored: bool)
    requires job.subject in originals && originals[job.subject] == source && !now.record.Saved?
    requires restored <==> job.faults.exit.None?
    requires restored ==> now.files == WrittenBack(originals, map[job.subject := source], {job.subject})
    requires !restored ==> exists done, thrown ::
      Halted(originals, now.files, map[job.subject := source], Throwing(job), done, thrown)
    ensures now.files.Keys == originals.Keys
    ensures Sound(originals, now) <==> job.faults.exit.None? || job.faults.exit.value == source
  {
    if restored {
      assert now.files == originals;
    } else {
      assert now.files[job.subject] == job.faults.exit.value;
    }
  }

  function FirstFailure(outcomes: seq<Outcome>): Verdict {
    if outcomes == [] then Survived
    else if !outcomes[0].passed then Killed(outcomes[0].timedOut)
    else FirstFailure(outcomes[1..])
  }

  /** A mutant survives exactly when every covering test passes; otherwise the first failure says how it was killed. */
  lemma {:induction false} VerdictIsFirstFailure(outcomes: seq<Outcome>)
    ensures FirstFailure(outcomes).Survived? <==> forall i :: 0 <= i < |outcomes| ==> outcomes[i].passed
    ensures FirstFailure(outcomes).Killed? ==>
      exists i :: 0 <= i < |outcomes| && FailsFirst(outcomes, i) && FirstFailure(outcomes).timedOut == outcomes[i].timedOut
  {
    if outcomes != [] {
      var rest := outcomes[1..];
      VerdictIsFirstFailure(rest);
      if !outcomes[0].passed {
        assert FailsFirst(outcomes, 0);
      } else if FirstFailure(rest).Killed? {
        var i :| 0 <= i < |rest| && FailsFirst(rest, i) && FirstFailure(rest).timedOut == rest[i].timedOut;
        assert outcomes[i + 1] == rest[i];
        assert forall k :: 0 < k <= i ==> outcomes[k] == rest[k - 1];
        assert FailsFirst(outcomes, i + 1);
      } else {
        assert forall k :: 0 < k < |outcomes| ==> outcomes[k] == rest[k - 1];
      }
    }
  }

  predicate FailsFirst(outcomes: seq<Outcome>, i: nat)
    requires i < |outcomes|
  {
    !outcomes[i].passed && forall k :: 0 <= k < i ==> outcomes[k].passed
  }

  class MutationRun {
    const pid: int
    var files: map<File, string>
    var record: Record
    var pending: Originals
    /** Every disk a crash could have left since this process started. */
    var history: seq<Disk>

    function Now(): Disk
      reads this`files, this`record
    {
      Disk(files, record)
    }

    /** A new process finds the disk as the last one left it, and holds nothing. */
    constructor (disk: Disk, pid: int)
      ensures Now() == disk && this.pid == pid && pending == map[] && history == [disk]
    {
      this.pid := pid;
      files, record := disk.files, disk.record;
      pending := map[];
      history := [disk];
    }

    /** `torn` is whatever part of the text a crash in the middle of the write leaves. */
    method WriteFile(file: File, content: string) returns (torn: string)
      modifies this`files, this`history
      ensures files == old(files)[file := content]
      ensures history == old(history) + [Disk(old(files)[file := torn], record), Now()]
    {
      torn := *;
      history := history + [Disk(files[file := torn], record), Disk(files[file := content], record)];
      files := files[file := content];
    }

    /** `syncRecovery`: the record lists what is pending, and is absent when nothing is. A write that throws leaves it torn. */
    method SyncRecovery(throws: bool)
      modifies this`record, this`history
      ensures record == if pending == map[] then (if throws then old(record) else Absent)
                        else if throws then Unreadable else Saved(pid, pending)
      ensures history == old(history) + (if pending == map[] then [] else [Disk(files, Unreadable)]) + [Now()]
    {
      if pending == map[] {
        record := if throws then record else Absent;
      } else {
        history := history + [Disk(files, Unreadable)];
        record := if throws then Unreadable else Saved(pid, pending);
      }
      history := history + [Now()];
    }

    /** Puts a named file back, or mutates it: sound at every instant. */
    method WriteNamed(file: File, content: string, ghost originals: Originals)
      requires file in originals && InRecord(originals, record, file)
      requires Sound(originals, Now()) && AllSound(originals, history)
      modifies this`files, this`history
      ensures files == old(files)[file := content]
      ensures Sound(originals, Now()) && AllSound(originals, history)
      ensures old(history) <= history && |history| == |old(history)| + 2 && history[|old(history)| + 1] == Now()
    {
      ghost var before := Now();
      var torn := WriteFile(file, content);
      NamedFileMayChange(originals, before, file, torn);
      NamedFileMayChange(originals, before, file, content);
    }

    /**
     `judgeMutant`. Without a fault the mutant is out again and the verdict is that of the first failing test; after a fault
     the exit hook ends the process. Every instant is sound if the record could be written. If not, the exit hook still
     rewrites the file, which no record names: it survives unless that write throws and leaves something else.
     */
    method JudgeMutant(job: Job, source: string, ghost originals: Originals) returns (judged: Option<Verdict>)
      requires files == originals && record == Absent && pending == map[]
      requires job.subject in originals && source == originals[job.subject]
      requires AllSound(originals, history)
      modifies this
      ensures judged == if Smooth(job.faults) then Some(FirstFailure(job.outcomes)) else None
      ensures judged.Some? ==> files == originals && record == Absent && pending == map[]
      ensures old(history) < history && Now() in history
      ensures !job.faults.record ==> AllSound(originals, history)
      ensures job.faults.record ==> Unrecorded(originals, old(history), history)
      ensures job.faults.record ==> (Sound(originals, Now()) <==> job.faults.exit.None? || job.faults.exit.value == source)
      ensures !job.faults.record && job.faults.mutant.None? ==> Mutated(originals, job) in history
    {
      if job.faults.record {
        FailToRecord(job, source, originals);
        return None;
      }
      PlaceMutant(job, source, originals);
      var verdict := Survived;
      if job.faults.mutant.None? { verdict := RunTests(job.outcomes); }
      var out := TakeMutantOut(job, source, originals);
      if !out || job.faults.mutant.Some? {
        var _ := RestorePending(Throwing(job), job.faults.exitRemoval, originals);
        return None;
      }
      return Some(verdict);
    }

    /** What the disk holds while the mutant, or what its write left, is in place. */
    ghost function Mutated(originals: Originals, job: Job): Disk
      requires job.subject in originals
    {
      Disk(originals[job.subject := if job.faults.mutant.Some? then job.faults.mutant.value else job.mutated],
           Saved(pid, map[job.subject := originals[job.subject]]))
    }

    method PlaceMutant(job: Job, source: string, ghost originals: Originals)
      requires files == originals && record == Absent && pending == map[]
      requires job.subject in originals && source == originals[job.subject]
      requires AllSound(originals, history)
      modifies this
      ensures Now() == Mutated(originals, job) && pending == map[job.subject := source]
      ensures AllSound(originals, history) && old(history) < history && Now() in history
    {
      pending := pending[job.subject := source];
      assert job.subject in pending;
      SyncRecovery(false);
      WriteNamed(job.subject, if job.faults.mutant.Some? then job.faults.mutant.value else job.mutated, originals);
    }

    /** The record cannot be written: the exit hook rewrites a file that was never mutated. */
    method FailToRecord(job: Job, source: string, ghost originals: Originals)
      requires files == originals && record == Absent && pending == map[]
      requires job.subject in originals && source == originals[job.subject]
      modifies this
      ensures old(history) < history && Now() in history
      ensures Unrecorded(originals, old(history), history)
      ensures Sound(originals, Now()) <==> job.faults.exit.None? || job.faults.exit.value == source
    {
      ghost var was := history;
      pending := pending[job.subject := source];
      assert job.subject in pending && pending == map[job.subject := source];
      SyncRecovery(true);
      ghost var before, synced := Now(), history;
      var restored := RestorePending(Throwing(job), job.faults.exitRemoval, originals);
      TouchedUnrecorded(originals, was, synced, if restored then history[..|history| - 1] else history, before, map[job.subject := source]);
      if restored { OneMoreUnrecorded(originals, was, history); }
      ExitOnIntactFiles(originals, Now(), job, source, restored);
    }

    /** The `finally` of a judgement: the file is written back and the record removed, unless one of the two throws. */
    method TakeMutantOut(job: Job, source: string, ghost originals: Originals) returns (out: bool)
      requires job.subject in originals && source == originals[job.subject]
      requires Now() == Mutated(originals, job) && pending == map[job.subject := source]
      requires AllSound(originals, history) && Now() in history
      modifies this
      ensures out <==> job.faults.restore.None? && !job.faults.removal
      ensures out ==> files == originals && record == Absent && pending == map[]
      ensures Restorable(originals, Now(), pending)
      ensures AllSound(originals, history) && old(history) < history && Now() in history
    {
      if job.faults.restore.Some? {
        WriteNamed(job.subject, job.faults.restore.value, originals);
        return false;
      }
      WriteNamed(job.subject, source, originals);
      pending := pending - {job.subject};
      SyncRecovery(job.faults.removal);
      return !job.faults.removal;
    }

    method RunTests(outcomes: seq<Outcome>) returns (verdict: Verdict)
      ensures verdict == FirstFailure(outcomes)
      ensures verdict.Survived? <==> forall i :: 0 <= i < |outcomes| ==> outcomes[i].passed
    {
      for i := 0 to |outcomes|
        invariant FirstFailure(outcomes) == FirstFailure(outcomes[i..])
        invariant forall k :: 0 <= k < i ==> outcomes[k].passed
      {
        if !outcomes[i].passed { return Killed(outcomes[i].timedOut); }
      }
      return Survived;
    }

    /** Writes the saved originals back, up to the first write that throws. The record stays as it is. */
    method PutBack(saved: Originals, failing: Failing) returns (ok: bool, ghost done: set<File>, ghost thrown: File)
      requires saved.Keys <= files.Keys
      modifies this`files, this`history
      ensures TouchedSince(old(Now()), old(history), history, saved)
      ensures ok <==> NoneThrows(saved.Keys, failing)
      ensures ok ==> files == WrittenBack(old(files), saved, saved.Keys)
      ensures !ok ==> Halted(old(files), files, saved, failing, done, thrown)
      ensures !ok ==> |history| > |old(history)| && history[|history| - 1] == Now()
    {
      ghost var before, was := Now(), history;
      var left := saved.Keys;
      done, thrown := {}, "";
      NothingBack(before, history, saved);
      while left != {}
        invariant left + done == saved.Keys && left !! done && NoneThrows(done, failing)
        invariant BackSoFar(before, was, Now(), history, saved, done)
        decreases left
      {
        var file :| file in left;
        if file in failing {
          HaltAt(before, was, saved, done, file, failing);
          ok, thrown := false, file;
          return;
        }
        RestoreOne(before, was, saved, done, file);
        left, done := left - {file}, done + {file};
      }
      assert done == saved.Keys;
      AllBack(before, was, Now(), history, saved);
      ok := true;
    }

    method RestoreOne(ghost before: Disk, ghost was: seq<Disk>, saved: Originals, ghost done: set<File>, file: File)
      requires BackSoFar(before, was, Now(), history, saved, done)
      requires file in saved && file in before.files && file !in done
      modifies this`files, this`history
      ensures BackSoFar(before, was, Now(), history, saved, done + {file})
    {
      assert Key(true);
      TouchOne(before, was, saved, done, file, saved[file]);
      OneMoreBack(before.files, saved, done, file);
    }

    method HaltAt(
        ghost before: Disk, ghost was: seq<Disk>, saved: Originals, ghost done: set<File>, file: File, failing: Failing)
      requires BackSoFar(before, was, Now(), history, saved, done)
      requires file in saved && file in before.files && file in failing && done <= saved.Keys && NoneThrows(done, failing)
      modifies this`files, this`history
      ensures TouchedSince(before, was, history, saved)
      ensures Halted(before.files, files, saved, failing, done, file)
      ensures |history| > |was| && history[|history| - 1] == Now()
    {
      assert Key(true);
      TouchOne(before, was, saved, done, file, failing[file]);
    }

    /** One write of that loop. */
    method TouchOne(
        ghost before: Disk, ghost was: seq<Disk>, saved: Originals, ghost done: set<File>, file: File, content: string)
      requires file in saved && file in before.files && record == before.record
      requires files == WrittenBack(before.files, saved, done) && TouchedSince(before, was, history, saved)
      modifies this`files, this`history
      ensures files == WrittenBack(before.files, saved, done)[file := content]
      ensures TouchedSince(before, was, history, saved)
      ensures |history| > |old(history)| && history[|history| - 1] == Now()
    {
      WrittenTouches(before, saved, done);
      ghost var now, disks := Now(), history;
      var torn := WriteFile(file, content);
      WriteTouches(before, now, saved, file, torn);
      WriteTouches(before, now, saved, file, content);
      TouchedTwice(before, was, disks, saved, Disk(now.files[file := torn], record), Now());
    }

    /**
     `restorePending`, the exit hook. When the record names what is pending it is sound at every instant; finished, every
     file is original and the record is gone, unless its removal throws too.
     */
    method RestorePending(failing: Failing, removalThrows: bool, ghost originals: Originals) returns (restored: bool)
      requires pending.Keys <= files.Keys
      modifies this
      ensures restored <==> NoneThrows(old(pending).Keys, failing)
      ensures restored ==> pending == map[] && files == WrittenBack(old(files), old(pending), old(pending).Keys)
      ensures restored ==> record == if removalThrows then old(record) else Absent
      ensures !restored ==> pending == old(pending) && record == old(record)
      ensures !restored ==> exists done, thrown :: Halted(old(files), files, old(pending), failing, done, thrown)
      ensures |history| > |old(history)| && history[|history| - 1] == Now()
      ensures TouchedSince(old(Now()), old(history), if restored then history[..|history| - 1] else history, old(pending))
      ensures old(Restorable(originals, Now(), pending) && AllSound(originals, history)) ==>
        AllSound(originals, history) && Sound(originals, Now()) && (restored ==> files == originals)
    {
      ghost var before, saved, was := Now(), pending, history;
      ghost var done, thrown;
      restored, done, thrown := PutBack(pending, failing);
      ghost var touched := history;
      if restored {
        pending := map[];
        SyncRecovery(removalThrows);
        assert history[..|history| - 1] == touched;
      }
      if Restorable(originals, before, saved) && AllSound(originals, was) {
        TouchedAreSound(originals, before, touched, was, saved);
        if restored { RestoredIsSound(originals, before, Now(), saved); }
      }
    }

    /** The exit hook of a process that holds nothing: it writes no file and removes the record. */
    method ExitHoldingNothing()
      requires pending == map[]
      modifies this`record, this`history
      ensures record == Absent && history == old(history) + [Now()]
    {
      SyncRecovery(false);
    }

    /**
     `claimWorkspace`. A claim that goes through leaves every file original, from any sound disk. A refused one exits, and
     so does one whose restoring write throws; the exit hook then removes the record, which still named every mutated
     file until that instant.
     */
    method ClaimWorkspace(ownerAlive: bool, failing: Failing, ghost originals: Originals) returns (claim: Claim)
      requires pending == map[] && Sound(originals, Now()) && AllSound(originals, history)
      modifies this
      ensures claim.Refused? <==> old(record).Saved? && old(record).pid != pid && ownerAlive
      ensures claim.Failed? <==> !claim.Refused? && old(record).Saved? && exists file :: file in old(record).originals && file in failing
      ensures claim.Claimed? ==> files == originals && record == Absent && AllSound(originals, history)
      ensures !claim.Claimed? ==> record == Absent
      ensures claim.Refused? ==> files == old(files) && (Sound(originals, Now()) <==> old(files) == originals)
      ensures claim.Failed? ==> exists done, thrown ::
        && Halted(old(files), files, old(record).originals, failing, done, thrown)
        && (Sound(originals, Now()) <==> HaltedOriginal(originals, old(files), failing, done, thrown))
      ensures !claim.Claimed? ==> history != [] && history[|history| - 1] == Now() && AllSound(originals, history[..|history| - 1])
      ensures pending == map[] && old(history) < history
    {
      if record.Saved? && record.pid != pid && ownerAlive {
        ExitHoldingNothing();
        WithoutRecord(originals, files);
        return Refused;
      }
      if record.Saved? {
        var ok := RestoreRecorded(failing, originals);
        if !ok {
          ghost var sound := history;
          ExitHoldingNothing();
          assert history[..|history| - 1] == sound;
          WithoutRecord(originals, files);
          return Failed;
        }
      }
      record := Absent;
      WithoutRecord(originals, files);
      history := history + [Now()];
      return Claimed;
    }

    /** The restoring loop of a claim: the record still names every mutated file, so every instant is sound. */
    method RestoreRecorded(failing: Failing, ghost originals: Originals) returns (ok: bool)
      requires record.Saved? && Sound(originals, Now()) && AllSound(originals, history)
      modifies this`files, this`history
      ensures AllSound(originals, history) && old(history) <= history
      ensures ok <==> NoneThrows(record.originals.Keys, failing)
      ensures ok ==> files == originals
      ensures !ok ==> exists done, thrown ::
        && Halted(old(files), files, record.originals, failing, done, thrown)
        && (files == originals <==> HaltedOriginal(originals, old(files), failing, done, thrown))
      ensures files.Keys == originals.Keys
    {
      ghost var before, was := Now(), history;
      var saved := record.originals;
      ghost var done, thrown;
      ok, done, thrown := PutBack(saved, failing);
      TouchedAreSound(originals, before, history, was, saved);
      if ok {
        RestoredIsOriginal(originals, before, files, saved);
      } else {
        HaltedIsOriginalIff(originals, before.files, files, saved, failing, done, thrown);
      }
    }
  }

  // ----- any number of runs

  /**
   A run: whether the process of the record it finds is alive, the restoring writes that throw, the mutants it judges, the
   one a signal interrupts if there is one, and the instant at which the process dies, be it in the claim, in a judgement
   or in the exit hook.
   */
  datatype Session = Session(
    pid: int, ownerAlive: bool, failing: Failing, jobs: seq<Job>, interrupted: Option<Job>, crash: nat)

  predicate JobsFit(originals: Originals, session: Session) {
    && (forall job :: job in session.jobs ==> job.subject in originals)
    && (session.interrupted.Some? ==> session.interrupted.value.subject in originals)
  }

  /** If there is a readable record, its process is this one or dead, and none of its files fails to be written back. */
  predicate Unhindered(disk: Disk, session: Session) {
    disk.record.Saved? ==>
      && (disk.record.pid == session.pid || !session.ownerAlive)
      && forall file :: file in disk.record.originals ==> file !in session.failing
  }

  /** The write of the record never throws. */
  predicate Recorded(session: Session) {
    forall job :: job in session.jobs ==> !job.faults.record
  }

  /** A sound disk, or one without a readable record. */
  predicate Accounted(originals: Originals, disk: Disk) {
    disk.files.Keys == originals.Keys && (Sound(originals, disk) || !disk.record.Saved?)
  }

  predicate AllAccounted(originals: Originals, disks: seq<Disk>) {
    forall disk :: disk in disks ==> Accounted(originals, disk)
  }

  lemma SoundIsAccounted(originals: Originals, disks: seq<Disk>)
    requires AllSound(originals, disks)
    ensures AllAccounted(originals, disks)
  {
  }

  lemma UnrecordedIsAccounted(originals: Originals, was: seq<Disk>, now: seq<Disk>)
    requires AllSound(originals, was) && Unrecorded(originals, was, now)
    ensures AllAccounted(originals, now)
  {
    forall k | 0 <= k < |now| ensures Accounted(originals, now[k]) {
      if k < |was| { assert now[k] == was[k] && was[k] in was; }
    }
  }

  /**
   A run that dies at any instant leaves a sound disk when nothing hinders its claim and its records can be written. Otherwise
   the disk it leaves is unsound only if a file is mutated and no readable record is left.
   */
  method RunUntilCrash(originals: Originals, disk: Disk, session: Session) returns (left: Disk)
    requires Sound(originals, disk) && JobsFit(originals, session)
    ensures Unhindered(disk, session) && Recorded(session) ==> Sound(originals, left)
    ensures Sound(originals, left) || (!left.record.Saved? && left.files != originals)
  {
    var run := new MutationRun(disk, session.pid);
    var claim := run.ClaimWorkspace(session.ownerAlive, session.failing, originals);
    if claim.Claimed? {
      Work(run, session, originals);
    } else {
      ClaimIsAccounted(originals, run.history);
    }
    left := run.history[session.crash % |run.history|];
    assert Accounted(originals, left);
    WithoutRecord(originals, left.files);
  }

  lemma ClaimIsAccounted(originals: Originals, disks: seq<Disk>)
    requires disks != [] && AllSound(originals, disks[..|disks| - 1])
    requires var last := disks[|disks| - 1]; !last.record.Saved? && last.files.Keys == originals.Keys
    ensures AllAccounted(originals, disks)
  {
    forall k | 0 <= k < |disks| ensures Accounted(originals, disks[k]) {
      if k < |disks| - 1 { assert disks[k] == disks[..|disks| - 1][k] && disks[k] in disks[..|disks| - 1]; }
    }
  }

  /** What a run does once its claim went through, up to the end of the process. */
  method Work(run: MutationRun, session: Session, originals: Originals)
    requires JobsFit(originals, session)
    requires run.files == originals && run.record == Absent && run.pending == map[]
    requires AllSound(originals, run.history) && run.history != []
    modifies run
    ensures run.history != [] && AllAccounted(originals, run.history)
    ensures Recorded(session) ==> AllSound(originals, run.history)
  {
    for i := 0 to |session.jobs|
      invariant run.files == originals && run.record == Absent && run.pending == map[]
      invariant AllSound(originals, run.history) && run.history != []
    {
      var job := session.jobs[i];
      assert job in session.jobs;
      ghost var was := run.history;
      var judged := run.JudgeMutant(job, run.files[job.subject], originals);
      if judged.None? {
        if job.faults.record {
          UnrecordedIsAccounted(originals, was, run.history);
        } else {
          SoundIsAccounted(originals, run.history);
        }
        return;
      }
    }
    if session.interrupted.Some? {
      var job := session.interrupted.value;
      run.PlaceMutant(job, run.files[job.subject], originals);
      var _ := run.RestorePending(Throwing(job), job.faults.exitRemoval, originals);
    }
    SoundIsAccounted(originals, run.history);
  }

  /** What the next run is, given the disk it finds. */
  type Environment = Disk -> Session

  /** On every disk that can be found the claim is not hindered and the records can be written. */
  ghost predicate Benign(originals: Originals, next: Environment) {
    forall disk :: Sound(originals, disk) ==>
      JobsFit(originals, next(disk)) && Recorded(next(disk)) && Unhindered(disk, next(disk))
  }

  /**
   After any number of runs, each killed at any instant, the next claim finds and restores every original, provided nothing
   hinders the claims on the disks they find. Without a record nothing does, whoever is alive and whatever throws.
   */
  method RecoverAfter(originals: Originals, runs: seq<Environment>, last: Environment) returns (files: map<File, string>)
    requires forall i :: 0 <= i < |runs| ==> Benign(originals, runs[i])
    requires Benign(originals, last)
    ensures files == originals
  {
    var disk := Disk(originals, Absent);
    for i := 0 to |runs|
      invariant Sound(originals, disk)
    {
      disk := RunUntilCrash(originals, disk, runs[i](disk));
    }
    var session := last(disk);
    var run := new MutationRun(disk, session.pid);
    var _ := run.ClaimWorkspace(session.ownerAlive, session.failing, originals);
    files := run.files;
  }

  // ----- the refused run, the failed claim and the record that cannot be written

  /** A mutated file named in the record of a run that is still there. */
  const ORIGINALS: Originals := map["src/a.ts" := "a === b"]
  const MUTATED: Disk := Disk(map["src/a.ts" := "a !== b"], Saved(1, ORIGINALS))

  lemma MutatedIsSound()
    ensures Sound(ORIGINALS, MUTATED) && MUTATED.files != ORIGINALS
  {
    assert InRecord(ORIGINALS, MUTATED.record, "src/a.ts");
    assert MUTATED.files["src/a.ts"][2] == '!' && ORIGINALS["src/a.ts"][2] == '=';
  }

  /** The ordinary crash: the process of the record is dead and nothing throws. The next claim restores the file. */
  method CrashIsRecovered() returns (files: map<File, string>, claim: Claim)
    ensures claim.Claimed? && files == ORIGINALS
  {
    MutatedIsSound();
    var next := new MutationRun(MUTATED, 2);
    claim := next.ClaimWorkspace(false, map[], ORIGINALS);
    files := next.files;
  }

  /**
   A second process that is refused while a mutant is in place removes the record on its way out. The mutated file is
   then in no record, and a crash of the first process loses its original.
   */
  method RefusalLosesOriginal() returns (after: Disk)
    ensures Sound(ORIGINALS, MUTATED) && !Sound(ORIGINALS, after)
    ensures after == Disk(MUTATED.files, Absent)
  {
    MutatedIsSound();
    var second := new MutationRun(MUTATED, 2);
    var _ := second.ClaimWorkspace(true, map[], ORIGINALS);
    after := second.Now();
  }

  /** The process of the record is dead, the restoring write is denied: the record goes, the mutant stays. */
  method FailedClaimLosesOriginal() returns (after: Disk)
    ensures Sound(ORIGINALS, MUTATED) && !Sound(ORIGINALS, after)
    ensures after.record == Absent
  {
    MutatedIsSound();
    var next := new MutationRun(MUTATED, 2);
    var failing := map["src/a.ts" := "a !== b"];
    assert "src/a.ts" in ORIGINALS.Keys && "src/a.ts" in failing.Keys;
    var _ := next.ClaimWorkspace(false, failing, ORIGINALS);
    after := next.Now();
    assert after.files["src/a.ts"][2] == '!' && ORIGINALS["src/a.ts"][2] == '=';
  }

  /**
   The record cannot be written and the exit hook cannot finish rewriting the file: a file that was never mutated is cut
   short, and no record names it.
   */
  method FailedRecordLosesOriginal() returns (after: Disk)
    ensures !after.record.Saved? && !Sound(ORIGINALS, after)
  {
    var run := new MutationRun(Disk(ORIGINALS, Absent), 1);
    var faults := NO_FAULTS.(record := true, exit := Some(""));
    var source := ORIGINALS["src/a.ts"];
    var _ := run.JudgeMutant(Job("src/a.ts", "a !== b", [], faults), source, ORIGINALS);
    after := run.Now();
  }
}
