/**
 Deduplication by hash: `create_or_find` as find, insert and find again, and many callers doing so
 at once. The unique constraint on the hash is the database's.
 */
module Dedup {
  import opened Wrappers
  import opened Tables

  datatype CreateFile = CreateFile(hash: string, size: nat, contentType: string)

  type Files = map<Uuid, FileRow>

  predicate HasHash(files: Files, hash: string) { exists id | id in files :: files[id].hash == hash }

  predicate UniqueHashes(files: Files) {
    forall a, b | a in files && b in files :: files[a].hash == files[b].hash ==> a == b
  }

  predicate IdsMatch(files: Files) { forall id | id in files :: files[id].id == id }

  function NewRow(id: Uuid, input: CreateFile): FileRow { FileRow(id, input.hash, input.size, input.contentType) }

  // ----- One caller -----

  datatype Insertion = Inserted(file: FileRow) | Conflict

  class FileTable {
    var files: Files
    var nextId: Uuid

    ghost predicate Valid()
      reads this
    {
      UniqueHashes(files) && IdsMatch(files) && forall id | id in files :: id < nextId
    }

    constructor ()
      ensures Valid() && files == map[]
    {
      files, nextId := map[], 0;
    }

    method FindByHash(hash: string) returns (r: Option<FileRow>)
      ensures r.None? ==> !HasHash(files, hash)
      ensures r.Some? ==> r.value.hash == hash && exists id | id in files :: files[id] == r.value
    {
      var ids := set id | id in files && files[id].hash == hash;
      if ids == {} {
        assert forall id | id in files :: files[id].hash == hash ==> id in ids;
        return None;
      }
      var id :| id in ids;
      r := Some(files[id]);
    }

    method Create(input: CreateFile) returns (r: Insertion)
      requires Valid()
      modifies this
      ensures Valid()
      ensures r.Conflict? <==> HasHash(old(files), input.hash)
      ensures r.Conflict? ==> files == old(files) && nextId == old(nextId)
      ensures r.Inserted? ==>
        r.file == NewRow(old(nextId), input) && files == old(files)[old(nextId) := r.file] && nextId == old(nextId) + 1
    {
      var taken := exists id | id in files :: files[id].hash == input.hash;
      if taken { return Conflict; }
      r := Inserted(FileRow(nextId, input.hash, input.size, input.contentType));
      files, nextId := files[nextId := r.file], nextId + 1;
    }

    method CreateOrFind(input: CreateFile) returns (r: Result<(FileRow, bool), string>)
      requires Valid()
      modifies this
      ensures Valid() && r.Ok?
      ensures var (file, isNew) := r.value;
        && (isNew <==> !HasHash(old(files), input.hash))
        && file.hash == input.hash && file.id in files && files[file.id] == file
        && files == (if isNew then old(files)[file.id := NewRow(file.id, input)] else old(files))
        && nextId == (if isNew then old(nextId) + 1 else old(nextId))
        && (isNew ==> file.id == old(nextId) && file.id !in old(files))
        && (isNew ==> file.size == input.size && file.contentType == input.contentType)
    {
      var existing := FindByHash(input.hash);
      match existing
      case Some(row) => return Ok((row, false));
      case None =>
        var created := Create(input);
        match created
        case Inserted(row) => return Ok((row, true));
        case Conflict =>
          var again := FindByHash(input.hash);
          match again
          case Some(row) => return Ok((row, false));
          case None => return Err("File disappeared after conflict");
    }
  }

  // ----- Many callers -----

  datatype Progress =
    | Finding
    | Inserting
    | FindingAgain                 // the insert hit the unique constraint
    | Done(fileId: Uuid, isNew: bool)
    | Disappeared                  // conflicted, yet the row was gone
    | Errored                      // some other database error

  datatype Caller = Caller(input: CreateFile, progress: Progress)

  datatype State = State(files: Files, callers: map<nat, Caller>)

  datatype Step =
    | Arrive(c: nat, input: CreateFile)
    | Find(c: nat, found: Option<Uuid>)
    | Insert(c: nat, id: Uuid)
    | FindAgain(c: nat, found: Option<Uuid>)
    | Error(c: nat)

  predicate AnswersFind(files: Files, hash: string, found: Option<Uuid>) {
    if found.Some? then found.value in files && files[found.value].hash == hash else !HasHash(files, hash)
  }

  predicate At(s: State, c: nat, p: Progress) { c in s.callers && s.callers[c].progress == p }

  predicate Enabled(s: State, step: Step) {
    match step
    case Arrive(c, _) => c !in s.callers
    case Find(c, found) => At(s, c, Finding) && AnswersFind(s.files, s.callers[c].input.hash, found)
    case Insert(c, id) => At(s, c, Inserting) && id !in s.files
    case FindAgain(c, found) => At(s, c, FindingAgain) && AnswersFind(s.files, s.callers[c].input.hash, found)
    case Error(c) => c in s.callers && !s.callers[c].progress.Done?
  }

  function Moved(s: State, c: nat, p: Progress): State
    requires c in s.callers
  {
    s.(callers := s.callers[c := s.callers[c].(progress := p)])
  }

  function Apply(s: State, step: Step): State
    requires Enabled(s, step)
  {
    match step
    case Arrive(c, input) => s.(callers := s.callers[c := Caller(input, Finding)])
    case Find(c, found) => Moved(s, c, if found.Some? then Done(found.value, false) else Inserting)
    case Insert(c, id) =>
      var input := s.callers[c].input;
      if HasHash(s.files, input.hash) then Moved(s, c, FindingAgain)
      else Moved(s.(files := s.files[id := NewRow(id, input)]), c, Done(id, true))
    case FindAgain(c, found) => Moved(s, c, if found.Some? then Done(found.value, false) else Disappeared)
    case Error(c) => Moved(s, c, Errored)
  }

  predicate ToldNew(s: State, c: nat, hash: string) {
    c in s.callers && s.callers[c].input.hash == hash && s.callers[c].progress.Done? && s.callers[c].progress.isNew
  }

  predicate CallerOk(s: State, caller: Caller) {
    match caller.progress
    case Done(id, _) => id in s.files && s.files[id].hash == caller.input.hash
    case FindingAgain => HasHash(s.files, caller.input.hash)
    case Disappeared => false
    case _ => true
  }

  ghost predicate Inv(start: Files, s: State) {
    && UniqueHashes(s.files)
    && (forall c | c in s.callers :: CallerOk(s, s.callers[c]))
    && (forall hash :: HasHash(s.files, hash) <==> HasHash(start, hash) || exists c :: ToldNew(s, c, hash))
    && (forall hash, c :: ToldNew(s, c, hash) ==> !HasHash(start, hash))
    && (forall hash, c, d :: ToldNew(s, c, hash) && ToldNew(s, d, hash) ==> c == d)
  }

  /** A step that creates nothing and tells nobody that a file is new. */
  lemma InvQuiet(start: Files, s: State, s': State)
    requires Inv(start, s) && s'.files == s.files
    requires forall c | c in s'.callers :: CallerOk(s', s'.callers[c])
    requires forall c, hash :: ToldNew(s', c, hash) <==> ToldNew(s, c, hash)
    ensures Inv(start, s')
  {
  }

  lemma InvInserted(start: Files, s: State, c: nat, id: Uuid)
    requires Inv(start, s) && Enabled(s, Insert(c, id)) && !HasHash(s.files, s.callers[c].input.hash)
    ensures Inv(start, Apply(s, Insert(c, id)))
  {
    var s' := Apply(s, Insert(c, id));
    var h := s.callers[c].input.hash;
    assert s'.files[id].hash == h;
    forall hash ensures HasHash(s'.files, hash) <==> HasHash(s.files, hash) || hash == h {
      if HasHash(s.files, hash) {
        var f :| f in s.files && s.files[f].hash == hash;
        assert s'.files[f].hash == hash;
      }
    }
    forall d | d in s'.callers ensures CallerOk(s', s'.callers[d]) {
      if d != c { assert CallerOk(s, s.callers[d]); }
    }
    forall hash, d ensures ToldNew(s', d, hash) <==> ToldNew(s, d, hash) || (d == c && hash == h) {
    }
    assert ToldNew(s', c, h);
  }

  lemma InvStep(start: Files, s: State, step: Step)
    requires Inv(start, s) && Enabled(s, step)
    ensures Inv(start, Apply(s, step))
  {
    var s' := Apply(s, step);
    if step.Insert? && !HasHash(s.files, s.callers[step.c].input.hash) {
      InvInserted(start, s, step.c, step.id);
    } else {
      forall c | c in s'.callers ensures CallerOk(s', s'.callers[c]) {
        if c in s.callers { assert CallerOk(s, s.callers[c]); }
      }
      InvQuiet(start, s, s');
    }
  }

  predicate IsRun(states: seq<State>, steps: seq<Step>) {
    && |states| == |steps| + 1
    && states[0].callers == map[] && UniqueHashes(states[0].files)
    && forall i :: 0 <= i < |steps| ==> Enabled(states[i], steps[i]) && states[i + 1] == Apply(states[i], steps[i])
  }

  lemma {:induction false} InvHolds(states: seq<State>, steps: seq<Step>, i: nat)
    requires IsRun(states, steps) && i < |states|
    ensures Inv(states[0].files, states[i])
  {
    if i > 0 {
      InvHolds(states, steps, i - 1);
      InvStep(states[0].files, states[i - 1], steps[i - 1]);
    }
  }

  /** However the callers interleave: one row a hash, one file id for its callers, nobody left with a
      row that disappeared, and once somebody is done, exactly one caller was told the file is new
      if the hash was absent at the start, none otherwise. */
  lemma CallersAgree(states: seq<State>, steps: seq<Step>, c: nat, d: nat)
    requires IsRun(states, steps)
    requires var s := states[|steps|]; c in s.callers && d in s.callers
    ensures
      var s := states[|steps|];
      var one, two := s.callers[c].progress, s.callers[d].progress;
      var hash := s.callers[c].input.hash;
      && UniqueHashes(s.files)
      && one != Disappeared
      && (hash == s.callers[d].input.hash && one.Done? && two.Done? ==>
            one.fileId == two.fileId && (one.isNew && two.isNew ==> c == d))
      && (one.Done? ==> (HasHash(states[0].files, hash) <==> !exists e :: ToldNew(s, e, hash)))
  {
    var s := states[|steps|];
    var one, two := s.callers[c].progress, s.callers[d].progress;
    var hash := s.callers[c].input.hash;
    InvHolds(states, steps, |steps|);
    assert CallerOk(s, s.callers[c]) && CallerOk(s, s.callers[d]);
    if one.Done? { assert HasHash(s.files, hash); }
    if one.Done? && one.isNew && two.Done? && two.isNew && s.callers[d].input.hash == hash {
      assert ToldNew(s, c, hash) && ToldNew(s, d, hash);
    }
  }
}
