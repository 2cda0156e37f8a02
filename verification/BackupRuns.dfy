/**
 Backup jobs, the marking of stale ones, and deletions from the history, all at once. A deletion
 removes the file, then the row; a job uploads at some moment between creating its row and its end.
 */
module BackupRuns {
  import opened Tables
  import opened Backups

  datatype Phase = Working | Stored | Over

  datatype Row = Row(file: StoredFile, status: Status)

  datatype Job = Job(file: StoredFile, phase: Phase)

  /** cleared has the rows whose file some deletion has just removed. */
  datatype State = State(rows: map<Uuid, Row>, jobs: map<Uuid, Job>, files: set<StoredFile>, cleared: set<Uuid>)

  datatype Step =
    | Create(id: Uuid, file: StoredFile)
    | Upload(id: Uuid)
    | Finish(id: Uuid)
    | GiveUp(id: Uuid)
    | Crash(id: Uuid)
    | MarkStale(id: Uuid)
    | DeleteFile(id: Uuid, cleanup: bool)   // a clean-up only picks completed records
    | DeleteRow(id: Uuid)

  predicate JobIn(s: State, id: Uuid, phase: Phase) { id in s.jobs && s.jobs[id].phase == phase }

  predicate Enabled(s: State, step: Step) {
    match step
    case Create(id, file) => id !in s.jobs && file !in s.files && forall j | j in s.jobs :: s.jobs[j].file != file
    case Upload(id) => JobIn(s, id, Working)
    case Finish(id) => JobIn(s, id, Stored)
    case GiveUp(id) => id in s.jobs && s.jobs[id].phase != Over
    case Crash(id) => id in s.jobs && s.jobs[id].phase != Over
    case MarkStale(id) => id in s.rows && s.rows[id].status == Running
    case DeleteFile(id, cleanup) => id in s.rows && (cleanup ==> s.rows[id].status == Completed)
    case DeleteRow(id) => id in s.rows && id in s.cleared
  }

  function WithStatus(s: State, id: Uuid, status: Status): State {
    if id in s.rows then s.(rows := s.rows[id := s.rows[id].(status := status)]) else s
  }

  function InPhase(s: State, id: Uuid, phase: Phase): State
    requires id in s.jobs
  {
    s.(jobs := s.jobs[id := s.jobs[id].(phase := phase)])
  }

  function Apply(s: State, step: Step): State
    requires Enabled(s, step)
  {
    match step
    case Create(id, file) => s.(rows := s.rows[id := Row(file, Running)], jobs := s.jobs[id := Job(file, Working)])
    case Upload(id) => InPhase(s.(files := s.files + {s.jobs[id].file}), id, Stored)
    case Finish(id) => InPhase(WithStatus(s, id, Completed), id, Over)
    case GiveUp(id) => InPhase(WithStatus(s, id, Failed), id, Over)
    case Crash(id) => InPhase(s, id, Over)
    case MarkStale(id) => WithStatus(s, id, Failed)
    case DeleteFile(id, _) => s.(files := s.files - {s.rows[id].file}, cleared := s.cleared + {id})
    case DeleteRow(id) => s.(rows := s.rows - {id}, cleared := s.cleared - {id})
  }

  predicate IsRun(states: seq<State>, steps: seq<Step>) {
    && |states| == |steps| + 1 && states[0] == State(map[], map[], {}, {})
    && forall i :: 0 <= i < |steps| ==> Enabled(states[i], steps[i]) && states[i + 1] == Apply(states[i], steps[i])
  }

  // ----- In every run -----

  predicate DistinctFiles(s: State) {
    forall i, j | i in s.jobs && j in s.jobs && s.jobs[i].file == s.jobs[j].file :: i == j
  }

  predicate RowsOk(s: State) {
    && (forall i | i in s.rows :: i in s.jobs && s.rows[i].file == s.jobs[i].file)
    && (forall i | i in s.rows && s.rows[i].status == Completed :: s.jobs[i].phase == Over)
    && s.cleared <= s.rows.Keys
  }

  predicate FilesUploaded(s: State) {
    forall f | f in s.files :: exists i | i in s.jobs :: s.jobs[i].file == f && s.jobs[i].phase != Working
  }

  predicate Inv(s: State) { DistinctFiles(s) && RowsOk(s) && FilesUploaded(s) }

  lemma FilesStep(s: State, step: Step)
    requires FilesUploaded(s) && Enabled(s, step)
    ensures FilesUploaded(Apply(s, step))
  {
    var s' := Apply(s, step);
    forall f | f in s'.files ensures exists i | i in s'.jobs :: s'.jobs[i].file == f && s'.jobs[i].phase != Working {
      if f in s.files {
        var i :| i in s.jobs && s.jobs[i].file == f && s.jobs[i].phase != Working;
        assert s'.jobs[i].file == f;
      } else {
        assert s'.jobs[step.id].file == f;
      }
    }
  }

  lemma DistinctStep(s: State, step: Step)
    requires DistinctFiles(s) && Enabled(s, step)
    ensures DistinctFiles(Apply(s, step))
  {
    var s' := Apply(s, step);
    forall i, j | i in s'.jobs && j in s'.jobs && s'.jobs[i].file == s'.jobs[j].file ensures i == j {
      assert i in s.jobs ==> s'.jobs[i].file == s.jobs[i].file;
    }
  }

  lemma RowsStep(s: State, step: Step)
    requires RowsOk(s) && Enabled(s, step)
    ensures RowsOk(Apply(s, step))
  {
  }

  lemma InvStep(s: State, step: Step)
    requires Inv(s) && Enabled(s, step)
    ensures Inv(Apply(s, step))
  {
    DistinctStep(s, step);
    RowsStep(s, step);
    FilesStep(s, step);
  }

  lemma {:induction false} InvHolds(states: seq<State>, steps: seq<Step>, k: nat)
    requires IsRun(states, steps) && k < |states|
    ensures Inv(states[k])
  {
    if k > 0 {
      InvHolds(states, steps, k - 1);
      InvStep(states[k - 1], steps[k - 1]);
    }
  }

  // ----- When deletions come late enough -----

  predicate NamedFiles(s: State) { forall f | f in s.files :: exists i | i in s.rows :: s.rows[i].file == f }

  /** The job of a deleted record has done its upload, or never will. */
  predicate DeletesLate(s: State, step: Step) { step.DeleteFile? ==> !JobIn(s, step.id, Working) }

  predicate Settled(s: State) {
    && (forall i | i in s.jobs && s.jobs[i].phase == Working :: i in s.rows && i !in s.cleared)
    && (forall i | i in s.cleared && i in s.rows :: s.rows[i].file !in s.files)
  }

  lemma SettledStep(s: State, step: Step)
    requires Inv(s) && Settled(s) && Enabled(s, step) && DeletesLate(s, step)
    ensures Settled(Apply(s, step))
  {
  }

  lemma NamedStep(s: State, step: Step)
    requires RowsOk(s) && Settled(s) && NamedFiles(s) && Enabled(s, step)
    ensures NamedFiles(Apply(s, step))
  {
    var s' := Apply(s, step);
    forall f | f in s'.files ensures exists i | i in s'.rows :: s'.rows[i].file == f {
      if f in s.files {
        var i :| i in s.rows && s.rows[i].file == f;
        assert step.DeleteRow? ==> step.id != i;
        assert s'.rows[i].file == f;
      } else {
        assert step.Upload?;
        assert s.jobs[step.id].file == f;
        assert s'.rows[step.id].file == f;
      }
    }
  }

  /** If every deletion comes after its job's upload, or after the job gave up, each stored file has a
      history row naming it throughout. */
  lemma {:induction false} FilesStayNamed(states: seq<State>, steps: seq<Step>, k: nat)
    requires IsRun(states, steps) && k < |states|
    requires forall i | 0 <= i < k :: DeletesLate(states[i], steps[i])
    ensures Settled(states[k]) && NamedFiles(states[k])
  {
    if k > 0 {
      FilesStayNamed(states, steps, k - 1);
      InvHolds(states, steps, k - 1);
      SettledStep(states[k - 1], steps[k - 1]);
      NamedStep(states[k - 1], steps[k - 1]);
    }
  }

  /** Retention clean-up always comes late enough: a completed record's job is over, in every run. */
  lemma CleanupDeletesLate(states: seq<State>, steps: seq<Step>, k: nat)
    requires IsRun(states, steps) && k < |steps| && steps[k].DeleteFile? && steps[k].cleanup
    ensures DeletesLate(states[k], steps[k])
  {
    InvHolds(states, steps, k);
  }

  // ----- When one does not -----

  predicate Next(s: State, step: Step, s': State) { Enabled(s, step) && s' == Apply(s, step) }

  /** Deleting a record whose job is still to upload lets that upload leave a file no row names, also
      when the record was marked failed as stale first and so looks finished. */
  lemma DeletingEarlyOrphans(states: seq<State>, steps: seq<Step>, id: Uuid) returns (deleted: State, gone: State,
                             end: State)
    requires IsRun(states, steps)
    requires var s := states[|steps|]; id in s.rows && JobIn(s, id, Working)
    ensures var s := states[|steps|];
      && Next(s, DeleteFile(id, false), deleted) && Next(deleted, DeleteRow(id), gone) && Next(gone, Upload(id), end)
      && !NamedFiles(end)
  {
    var s := states[|steps|];
    InvHolds(states, steps, |steps|);
    deleted := Apply(s, DeleteFile(id, false));
    gone := Apply(deleted, DeleteRow(id));
    end := Apply(gone, Upload(id));
    assert s.jobs[id].file in end.files;
    assert forall i | i in end.rows :: end.rows[i].file != s.jobs[id].file;
  }

  /** Marking it stale does not stop the job. */
  lemma StaleStillWorking(states: seq<State>, steps: seq<Step>, id: Uuid) returns (states': seq<State>,
                          steps': seq<Step>)
    requires IsRun(states, steps)
    requires var s := states[|steps|]; id in s.rows && s.rows[id].status == Running && JobIn(s, id, Working)
    ensures IsRun(states', steps') && steps' == steps + [MarkStale(id)]
    ensures var s := states'[|steps'|]; id in s.rows && s.rows[id].status == Failed && JobIn(s, id, Working)
  {
    var s := states[|steps|];
    steps' := steps + [MarkStale(id)];
    states' := states + [Apply(s, MarkStale(id))];
  }

  // ----- What a deleter can see -----

  predicate Shows(s: State, id: Uuid, status: Status) { id in s.rows && s.rows[id].status == status }

  /** A run with one deletion, of a record that then shows `status`, and a file without a row at the end. */
  predicate OrphansBy(states: seq<State>, steps: seq<Step>, k: nat, id: Uuid, status: Status) {
    && IsRun(states, steps) && k < |steps| && Shows(states[k], id, status)
    && (forall m :: 0 <= m < |steps| && steps[m].DeleteFile? ==> m == k && steps[m].id == id)
    && !NamedFiles(states[|steps|])
  }

  lemma Begun(id: Uuid, file: StoredFile) returns (states: seq<State>, steps: seq<Step>)
    ensures IsRun(states, steps) && steps == [Create(id, file)]
    ensures Shows(states[1], id, Running) && JobIn(states[1], id, Working)
  {
    var s := State(map[], map[], {}, {});
    steps := [Create(id, file)];
    states := [s, Apply(s, Create(id, file))];
  }

  lemma EarlyDeletionOrphans(states: seq<State>, steps: seq<Step>, id: Uuid, status: Status)
    returns (more: seq<State>, moreSteps: seq<Step>)
    requires IsRun(states, steps) && Shows(states[|steps|], id, status) && JobIn(states[|steps|], id, Working)
    requires forall m :: 0 <= m < |steps| ==> !steps[m].DeleteFile?
    ensures OrphansBy(more, moreSteps, |steps|, id, status)
  {
    var deleted, gone, end := DeletingEarlyOrphans(states, steps, id);
    more := states + [deleted, gone, end];
    moreSteps := steps + [DeleteFile(id, false), DeleteRow(id), Upload(id)];
  }

  /** Going by the status alone, deleting a record can leave an orphan unless it is completed: the job
      of a running one may yet upload, and so may that of a failed one, which may just be stale. */
  lemma OrphanUnlessCompleted(status: Status)
    ensures (exists states: seq<State>, steps: seq<Step>, k: nat, id: Uuid :: OrphansBy(states, steps, k, id, status))
      <==> status != Completed
  {
    if status == Completed {
      forall states: seq<State>, steps: seq<Step>, k: nat, id: Uuid ensures !OrphansBy(states, steps, k, id, status) {
        if OrphansBy(states, steps, k, id, status) {
          InvHolds(states, steps, k);
          FilesStayNamed(states, steps, |steps|);
        }
      }
    } else {
      var states, steps := Begun(0, (0, "b"));
      if status == Failed {
        states, steps := StaleStillWorking(states, steps, 0);
      }
      var more, moreSteps := EarlyDeletionOrphans(states, steps, 0, status);
      assert OrphansBy(more, moreSteps, |steps|, 0, status);
    }
  }
}
