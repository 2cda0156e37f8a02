/**
 Whole uploads at once: a caller finds or inserts the file row, stores the bytes and records their
 location if the row is its own, and links the file to its project; the others do so in between.
 */
module UploadOverlap {
  import opened Tables
  import Dedup

  /** Linked is success as the caller is told it. */
  datatype Phase = Arrived | Rowed | Stored | Linked | Failed

  /** located: this caller has recorded where the bytes are. */
  datatype Caller = Caller(input: Dedup.CreateFile, primary: Uuid, fileId: Uuid, isNew: bool, located: bool,
    phase: Phase)

  /** stored has the hashes whose bytes each storage has; located where each file is recorded to be. */
  datatype State = State(
    files: Dedup.Files, stored: set<(Uuid, string)>, located: set<(Uuid, Uuid)>, callers: map<nat, Caller>)

  datatype Step =
    | Arrive(c: nat, input: Dedup.CreateFile, primary: Uuid)
    | FindOrInsert(c: nat, id: Uuid)
    | StoreBytes(c: nat)
    | Locate(c: nat)
    | Link(c: nat)
    | Fail(c: nat)

  predicate At(s: State, c: nat, phase: Phase) { c in s.callers && s.callers[c].phase == phase }

  predicate Enabled(s: State, step: Step) {
    match step
    case Arrive(c, _, _) => c !in s.callers
    case FindOrInsert(c, id) =>
      && At(s, c, Arrived)
      && if Dedup.HasHash(s.files, s.callers[c].input.hash)
         then id in s.files && s.files[id].hash == s.callers[c].input.hash
         else id !in s.files
    case StoreBytes(c) => At(s, c, Rowed) && s.callers[c].isNew
    case Locate(c) => At(s, c, Stored) && !s.callers[c].located
    case Link(c) =>
      && c in s.callers
      && if s.callers[c].isNew then s.callers[c].phase == Stored && s.callers[c].located
        else s.callers[c].phase == Rowed
    case Fail(c) => c in s.callers && s.callers[c].phase != Linked
  }

  function With(s: State, c: nat, caller: Caller): State { s.(callers := s.callers[c := caller]) }

  function Apply(s: State, step: Step): State
    requires Enabled(s, step)
  {
    match step
    case Arrive(c, input, primary) => With(s, c, Caller(input, primary, 0, false, false, Arrived))
    case FindOrInsert(c, id) =>
      var caller := s.callers[c];
      var isNew := !Dedup.HasHash(s.files, caller.input.hash);
      With(s.(files := if isNew then s.files[id := Dedup.NewRow(id, caller.input)] else s.files), c,
           caller.(fileId := id, isNew := isNew, phase := Rowed))
    case StoreBytes(c) =>
      With(s.(stored := s.stored + {(s.callers[c].primary, s.callers[c].input.hash)}), c,
        s.callers[c].(phase := Stored))
    case Locate(c) =>
      With(s.(located := s.located + {(s.callers[c].fileId, s.callers[c].primary)}), c, s.callers[c].(located := true))
    case Link(c) => With(s, c, s.callers[c].(phase := Linked))
    case Fail(c) => With(s, c, s.callers[c].(phase := Failed))
  }

  /** Some recorded location has the file's bytes. */
  predicate HasBytes(s: State, id: Uuid) {
    id in s.files && exists l | l in s.located :: l.0 == id && (l.1, s.files[id].hash) in s.stored
  }

  predicate Fresh(s: State) {
    s.callers == map[] && Dedup.UniqueHashes(s.files) && forall l | l in s.located :: l.0 in s.files
  }

  predicate IsRun(states: seq<State>, steps: seq<Step>) {
    && |states| == |steps| + 1 && Fresh(states[0])
    && forall i :: 0 <= i < |steps| ==> Enabled(states[i], steps[i]) && states[i + 1] == Apply(states[i], steps[i])
  }

  // ----- What every step keeps -----

  /** The caller whose insertion made the row. */
  predicate Inserted(s: State, c: nat, id: Uuid) { c in s.callers && s.callers[c].isNew && s.callers[c].fileId == id }

  predicate CallerOk(s: State, caller: Caller) {
    && (caller.phase == Arrived ==> !caller.isNew && !caller.located)
    && (caller.isNew || caller.phase in {Rowed, Stored, Linked} ==>
          caller.fileId in s.files && s.files[caller.fileId].hash == caller.input.hash)
    && (caller.phase == Stored ==> caller.isNew && (caller.primary, caller.input.hash) in s.stored)
    && (caller.located ==>
          caller.isNew && (caller.fileId, caller.primary) in s.located
            && (caller.primary, caller.input.hash) in s.stored)
    && (caller.phase == Linked && caller.isNew ==> caller.located)
  }

  /** What is recorded was recorded at the start, or by the row's inserter. */
  predicate LocationOk(start: State, s: State, l: (Uuid, Uuid)) {
    l in start.located || exists c | c in s.callers ::
      Inserted(s, c, l.0) && s.callers[c].located && s.callers[c].primary == l.1
  }

  ghost predicate Inv(start: State, s: State) {
    && (forall c | c in s.callers :: CallerOk(s, s.callers[c]))
    && (forall c, d, id :: Inserted(s, c, id) && Inserted(s, d, id) ==> c == d)
    && (forall c, id :: Inserted(s, c, id) ==> id !in start.files)
    && (forall id | id in start.files :: id in s.files)
    && (forall l | l in s.located :: LocationOk(start, s, l))
  }

  lemma CallersStep(start: State, s: State, step: Step)
    requires Inv(start, s) && Enabled(s, step)
    ensures var s' := Apply(s, step); forall c | c in s'.callers :: CallerOk(s', s'.callers[c])
  {
    var s' := Apply(s, step);
    forall c | c in s'.callers ensures CallerOk(s', s'.callers[c]) {
      if c in s.callers { assert CallerOk(s, s.callers[c]); }
    }
  }

  lemma InsertersStep(start: State, s: State, step: Step)
    requires Inv(start, s) && Enabled(s, step)
    ensures var s' := Apply(s, step);
      && (forall c, d, id :: Inserted(s', c, id) && Inserted(s', d, id) ==> c == d)
      && (forall c, id :: Inserted(s', c, id) ==> id !in start.files)
      && (forall c, id :: Inserted(s, c, id) ==> Inserted(s', c, id))
  {
    var s' := Apply(s, step);
    forall c, id ensures Inserted(s', c, id) ==>
      Inserted(s, c, id) || (step.FindOrInsert? && step.c == c && step.id == id && id !in s.files)
    {
    }
    forall c, id | Inserted(s, c, id) ensures Inserted(s', c, id) && id in s.files {
      assert CallerOk(s, s.callers[c]);
    }
  }

  lemma LocationsStep(start: State, s: State, step: Step)
    requires Inv(start, s) && Enabled(s, step)
    ensures var s' := Apply(s, step); forall l | l in s'.located :: LocationOk(start, s', l)
  {
    var s' := Apply(s, step);
    InsertersStep(start, s, step);
    forall l | l in s'.located ensures LocationOk(start, s', l) {
      if l in s.located {
        assert LocationOk(start, s, l);
        if l !in start.located {
          var c :| c in s.callers && Inserted(s, c, l.0) && s.callers[c].located && s.callers[c].primary == l.1;
          assert CallerOk(s, s.callers[c]);
          assert Inserted(s', c, l.0) && s'.callers[c].located;
        }
      } else {
        assert CallerOk(s, s.callers[step.c]);
        assert Inserted(s', step.c, l.0);
      }
    }
  }

  lemma InvStep(start: State, s: State, step: Step)
    requires Inv(start, s) && Enabled(s, step)
    ensures Inv(start, Apply(s, step))
  {
    CallersStep(start, s, step);
    InsertersStep(start, s, step);
    LocationsStep(start, s, step);
  }

  lemma {:induction false} InvHolds(states: seq<State>, steps: seq<Step>, i: nat)
    requires IsRun(states, steps) && i < |states|
    ensures Inv(states[0], states[i])
  {
    if i > 0 {
      InvHolds(states, steps, i - 1);
      InvStep(states[0], states[i - 1], steps[i - 1]);
    }
  }

  /** A file added in the run has its bytes stored and recorded if and only if its inserter has got
      there; so that is when a duplicate that was told of success was told the truth. */
  lemma StoredIffInserterLocated(states: seq<State>, steps: seq<Step>, i: nat, id: Uuid)
    requires IsRun(states, steps) && i < |states| && id in states[i].files && id !in states[0].files
    ensures HasBytes(states[i], id) <==>
      exists c | c in states[i].callers :: Inserted(states[i], c, id) && states[i].callers[c].located
  {
    var s := states[i];
    InvHolds(states, steps, i);
    if HasBytes(s, id) {
      var l :| l in s.located && l.0 == id && (l.1, s.files[id].hash) in s.stored;
      assert LocationOk(states[0], s, l);
    }
    forall c | c in s.callers && Inserted(s, c, id) && s.callers[c].located ensures HasBytes(s, id) {
      assert CallerOk(s, s.callers[c]);
      assert (s.callers[c].fileId, s.callers[c].primary) in s.located;
    }
  }

  // ----- A success told too early -----

  predicate Next(s: State, step: Step, s': State) { Enabled(s, step) && s' == Apply(s, step) }

  /** Two callers upload the same new content; the second is told of success, as a duplicate, and the
      first, which has the bytes still to store, fails: nothing is stored. */
  lemma DuplicateToldTooEarly(input: Dedup.CreateFile) returns (states: seq<State>, steps: seq<Step>)
    ensures IsRun(states, steps)
    ensures steps == [Arrive(0, input, 5), Arrive(1, input, 5), FindOrInsert(0, 7), FindOrInsert(1, 7),
                      Link(1), Fail(0)]
    ensures At(states[6], 1, Linked) && states[6].callers[1].fileId == 7 && !HasBytes(states[6], 7)
  {
    var s0 := State(map[], {}, {}, map[]);
    var s1 := Apply(s0, Arrive(0, input, 5));
    var s2 := Apply(s1, Arrive(1, input, 5));
    assert !Dedup.HasHash(s2.files, input.hash);
    var s3 := Apply(s2, FindOrInsert(0, 7));
    assert s3.files[7].hash == input.hash;
    assert Dedup.HasHash(s3.files, input.hash);
    var s4 := Apply(s3, FindOrInsert(1, 7));
    var s5 := Apply(s4, Link(1));
    steps := [Arrive(0, input, 5), Arrive(1, input, 5), FindOrInsert(0, 7), FindOrInsert(1, 7), Link(1), Fail(0)];
    states := [s0, s1, s2, s3, s4, s5, Apply(s5, Fail(0))];
    forall i | 0 <= i < 6 ensures Next(states[i], steps[i], states[i + 1]) {
    }
  }
}
