/**
 Bulk deletes and uploads at once. A bulk delete is one transaction of several statements, each of
 which sees what others have committed; what it does itself nobody else sees until it commits, but
 rows it has deleted are locked. Removing a file takes every reference to it along.
 */
module BulkDeleteRaces {
  import opened Tables

  datatype Phase = Executed | Searched | Over

  /** gone are the references it has deleted, affected their files; todo the files it has found to be
      without a reference and has yet to remove, removed those it has. */
  datatype Transaction = Transaction(
    phase: Phase, gone: set<Uuid>, affected: set<Uuid>, todo: set<Uuid>, removed: set<Uuid>)

  /** What is committed, references with their files, and the bulk deletes. */
  datatype State = State(files: set<Uuid>, refs: map<Uuid, Uuid>, deletes: map<nat, Transaction>)

  datatype Step =
    | AddFile(file: Uuid)
    | Link(ref: Uuid, file: Uuid)            // an upload's last statement: its success is reported
    | Unlink(ref: Uuid)
    | Execute(d: nat, chosen: set<Uuid>)     // deletes the references that the filters choose
    | Search(d: nat)
    | RemoveFile(d: nat, file: Uuid)
    | Commit(d: nat)
    | Rollback(d: nat)

  predicate Open(s: State, d: nat) { d in s.deletes && s.deletes[d].phase != Over }

  predicate Deleting(s: State, ref: Uuid) { exists d | d in s.deletes :: Open(s, d) && ref in s.deletes[d].gone }

  predicate Removing(s: State, file: Uuid) { exists d | d in s.deletes :: Open(s, d) && file in s.deletes[d].removed }

  /** The references to a file. */
  function RefsTo(s: State, file: Uuid): set<Uuid> { set r | r in s.refs && s.refs[r] == file }

  /** Another transaction has deleted the file or a reference to it. */
  predicate InTheWay(s: State, e: nat, file: Uuid)
    requires e in s.deletes
  {
    Open(s, e) && (file in s.deletes[e].removed || exists r | r in s.deletes[e].gone :: r in RefsTo(s, file))
  }

  predicate Enabled(s: State, step: Step) {
    match step
    case AddFile(f) => f !in s.files
    case Link(r, f) => f in s.files && r !in s.refs && !Removing(s, f)
    case Unlink(r) => r in s.refs && !Deleting(s, r)
    case Execute(d, chosen) => d !in s.deletes && forall r | r in chosen :: r in s.refs && !Deleting(s, r)
    case Search(d) => d in s.deletes && s.deletes[d].phase == Executed
    case RemoveFile(d, f) =>
      && d in s.deletes && s.deletes[d].phase == Searched && f in s.deletes[d].todo
      && forall e | e in s.deletes && e != d :: !InTheWay(s, e, f)
    case Commit(d) =>
      && Open(s, d)
      && if s.deletes[d].phase == Executed then s.deletes[d].gone == {} else s.deletes[d].todo == {}
    case Rollback(d) => Open(s, d)
  }

  function With(s: State, d: nat, t: Transaction): State { s.(deletes := s.deletes[d := t]) }

  /** The affected files to which `d` sees no reference. */
  function Found(s: State, t: Transaction): set<Uuid> {
    set f | f in t.affected && f in s.files && RefsTo(s, f) <= t.gone
  }

  function Apply(s: State, step: Step): State
    requires Enabled(s, step)
  {
    match step
    case AddFile(f) => s.(files := s.files + {f})
    case Link(r, f) => s.(refs := s.refs[r := f])
    case Unlink(r) => s.(refs := s.refs - {r})
    case Execute(d, chosen) =>
      var affected := set r | r in chosen :: s.refs[r];
      With(s, d, Transaction(Executed, chosen, affected, {}, {}))
    case Search(d) =>
      var t := s.deletes[d];
      With(s, d, t.(phase := Searched, todo := Found(s, t)))
    case RemoveFile(d, f) =>
      var t := s.deletes[d];
      With(s, d, t.(gone := t.gone + RefsTo(s, f), todo := t.todo - {f}, removed := t.removed + {f}))
    case Commit(d) =>
      var t := s.deletes[d];
      State(s.files - t.removed, s.refs - t.gone, s.deletes[d := t.(phase := Over)])
    case Rollback(d) => With(s, d, s.deletes[d].(phase := Over))
  }

  predicate Leads(s: State, path: seq<Step>, end: State)
    decreases |path|
  {
    if path == [] then end == s else Enabled(s, path[0]) && Leads(Apply(s, path[0]), path[1..], end)
  }

  predicate Fresh(s: State) { s.deletes == map[] && forall r | r in s.refs :: s.refs[r] in s.files }

  // ----- What every step keeps -----

  /** Open transactions have deleted different references, all of them still committed. */
  predicate Apart(s: State) {
    && (forall d | d in s.deletes && Open(s, d) :: s.deletes[d].gone <= s.refs.Keys)
    && (forall d, e | d in s.deletes && e in s.deletes && d != e ::
          Open(s, d) && Open(s, e) ==> s.deletes[d].gone !! s.deletes[e].gone)
  }

  /** Only a search gives a transaction files to remove. */
  predicate TodoSearched(s: State) {
    forall d | d in s.deletes :: s.deletes[d].phase == Executed ==> s.deletes[d].todo == {}
  }

  /** The foreign key, with what a transaction has removed: every reference to it goes along. */
  predicate Linked(s: State) {
    && (forall r | r in s.refs :: s.refs[r] in s.files)
    && (forall d | d in s.deletes && Open(s, d) ::
          forall f | f in s.deletes[d].removed :: RefsTo(s, f) <= s.deletes[d].gone)
  }

  lemma GoneStays(s: State, step: Step, d: nat)
    requires Apart(s) && Enabled(s, step) && d in s.deletes && Open(Apply(s, step), d)
    ensures var s' := Apply(s, step); s'.deletes[d].gone <= s'.refs.Keys
  {
    var s' := Apply(s, step);
    assert Open(s, d) && s.deletes[d].gone <= s.refs.Keys;
    if step.Unlink? { assert step.ref !in s.deletes[d].gone; }
    if step.Commit? { assert d != step.d && s.deletes[d].gone !! s.deletes[step.d].gone; }
  }

  /** `d` comes to have deleted more references. */
  predicate Adds(step: Step, d: nat) { (step.Execute? || step.RemoveFile?) && step.d == d }

  lemma GoneApart(s: State, step: Step, d: nat, e: nat)
    requires Apart(s) && Enabled(s, step) && d != e && !Adds(step, e)
    requires Open(Apply(s, step), d) && Open(Apply(s, step), e)
    ensures var s' := Apply(s, step); s'.deletes[d].gone !! s'.deletes[e].gone
  {
    var s' := Apply(s, step);
    assert e in s.deletes && Open(s, e) && s'.deletes[e].gone == s.deletes[e].gone;
    if step.RemoveFile? && step.d == d {
      assert !InTheWay(s, e, step.file) && s.deletes[d].gone !! s.deletes[e].gone;
    } else if step.Execute? && step.d == d {
      assert forall r | r in step.chosen :: !Deleting(s, r);
    } else {
      assert d in s.deletes && Open(s, d) && s'.deletes[d].gone == s.deletes[d].gone;
    }
  }

  lemma ApartStep(s: State, step: Step)
    requires Apart(s) && Enabled(s, step)
    ensures Apart(Apply(s, step))
  {
    var s' := Apply(s, step);
    forall d | d in s'.deletes && Open(s', d) ensures s'.deletes[d].gone <= s'.refs.Keys {
      if d in s.deletes { GoneStays(s, step, d); }
    }
    forall d, e | d in s'.deletes && e in s'.deletes && d != e && Open(s', d) && Open(s', e)
      ensures s'.deletes[d].gone !! s'.deletes[e].gone
    {
      if Adds(step, e) { GoneApart(s, step, e, d); } else { GoneApart(s, step, d, e); }
    }
  }

  lemma LinkedStep(s: State, step: Step)
    requires Linked(s) && Enabled(s, step)
    ensures Linked(Apply(s, step))
  {
    var s' := Apply(s, step);
    forall d, f | d in s'.deletes && Open(s', d) && f in s'.deletes[d].removed
      ensures RefsTo(s', f) <= s'.deletes[d].gone
    {
      assert d in s.deletes ==> Open(s, d);
      if step.Link? { assert step.file != f; }
      assert (step.RemoveFile? && step.d == d && step.file == f) || RefsTo(s, f) <= s.deletes[d].gone;
    }
  }

  lemma {:induction false} InvAlong(start: State, path: seq<Step>, s: State)
    requires Apart(start) && TodoSearched(start) && Linked(start) && Leads(start, path, s)
    ensures Apart(s) && TodoSearched(s) && Linked(s)
    decreases |path|
  {
    if path != [] {
      ApartStep(start, path[0]);
      LinkedStep(start, path[0]);
      InvAlong(Apply(start, path[0]), path[1..], s);
    }
  }

  /** Every committed reference names a committed file. */
  lemma {:induction false} ReferencesKeepFiles(start: State, path: seq<Step>, s: State)
    requires Fresh(start) && Leads(start, path, s)
    ensures forall r | r in s.refs :: s.refs[r] in s.files
  {
    InvAlong(start, path, s);
  }

  // ----- When an upload's reference survives -----

  /** Somebody means this reference: a bulk delete whose filters choose it, or its own deletion. */
  predicate Chooses(step: Step, ref: Uuid) { (step.Execute? && ref in step.chosen) || step == Unlink(ref) }

  predicate Spares(path: seq<Step>, ref: Uuid) { forall step | step in path :: !Chooses(step, ref) }

  predicate Lists(s: State, d: nat, file: Uuid) { Open(s, d) && file in s.deletes[d].todo }

  /** The reference is there, and nothing under way will take it. */
  predicate Safe(s: State, ref: Uuid, file: Uuid) {
    && ref in s.refs && s.refs[ref] == file && !Deleting(s, ref)
    && forall d | d in s.deletes :: !Lists(s, d, file)
  }

  lemma SafeStep(s: State, step: Step, ref: Uuid, file: Uuid)
    requires Safe(s, ref, file) && Enabled(s, step) && !Chooses(step, ref)
    ensures Safe(Apply(s, step), ref, file)
  {
    var s' := Apply(s, step);
    forall d | d in s'.deletes && Open(s', d) ensures ref !in s'.deletes[d].gone && file !in s'.deletes[d].todo {
      if d in s.deletes {
        assert Open(s, d) && !Lists(s, d, file);
        assert ref !in s.deletes[d].gone;
      }
      assert ref in RefsTo(s, file);
    }
  }

  lemma {:induction false} SafeAlong(s: State, path: seq<Step>, end: State, ref: Uuid, file: Uuid)
    requires Safe(s, ref, file) && Leads(s, path, end) && Spares(path, ref)
    ensures Safe(end, ref, file)
    decreases |path|
  {
    if path != [] {
      assert path[0] in path && forall step | step in path[1..] :: step in path;
      SafeStep(s, path[0], ref, file);
      SafeAlong(Apply(s, path[0]), path[1..], end, ref, file);
    }
  }

  // How a transaction that lists a file goes on to take the file's references along.

  lemma {:induction false} LeadsOn(s: State, path: seq<Step>, mid: State, more: seq<Step>, end: State)
    requires Leads(s, path, mid) && Leads(mid, more, end)
    ensures Leads(s, path + more, end)
    decreases |path|
  {
    if path == [] {
      assert path + more == more;
    } else {
      assert (path + more)[1..] == path[1..] + more;
      LeadsOn(Apply(s, path[0]), path[1..], mid, more, end);
    }
  }

  function OpenOthers(s: State, d: nat): set<nat> { set e | e in s.deletes && e != d && Open(s, e) }

  /** The other transactions give up. */
  lemma {:induction false} RollOthersBack(s: State, d: nat, ref: Uuid) returns (path: seq<Step>, end: State)
    requires Open(s, d)
    ensures Leads(s, path, end) && Spares(path, ref)
    ensures end.files == s.files && end.refs == s.refs && d in end.deletes && end.deletes[d] == s.deletes[d]
    ensures OpenOthers(end, d) == {}
    decreases OpenOthers(s, d)
  {
    if OpenOthers(s, d) == {} {
      path, end := [], s;
    } else {
      var e :| e in OpenOthers(s, d);
      var next := Apply(s, Rollback(e));
      assert OpenOthers(next, d) == OpenOthers(s, d) - {e};
      path, end := RollOthersBack(next, d, ref);
      path := [Rollback(e)] + path;
    }
  }

  /** Alone, it removes every file on its list, and `ref` with one of them. */
  lemma {:induction false} RemoveAll(s: State, d: nat, ref: Uuid) returns (path: seq<Step>, end: State)
    requires Open(s, d) && s.deletes[d].phase == Searched && OpenOthers(s, d) == {}
    requires ref in s.refs && (s.refs[ref] in s.deletes[d].todo || ref in s.deletes[d].gone)
    ensures Leads(s, path, end) && Spares(path, ref)
    ensures Open(end, d) && end.deletes[d].phase == Searched && end.deletes[d].todo == {} && ref in end.deletes[d].gone
    decreases s.deletes[d].todo
  {
    if s.deletes[d].todo == {} {
      path, end := [], s;
    } else {
      var f :| f in s.deletes[d].todo;
      forall e | e in s.deletes && e != d ensures !InTheWay(s, e, f) {
        assert e !in OpenOthers(s, d);
      }
      var next := Apply(s, RemoveFile(d, f));
      assert OpenOthers(next, d) == {};
      path, end := RemoveAll(next, d, ref);
      path := [RemoveFile(d, f)] + path;
    }
  }

  lemma {:induction false} TakenAlong(s: State, d: nat, ref: Uuid) returns (path: seq<Step>, end: State)
    requires ref in s.refs && Lists(s, d, s.refs[ref]) && TodoSearched(s)
    ensures Leads(s, path, end) && Spares(path, ref) && ref !in end.refs
  {
    var alone, one := RollOthersBack(s, d, ref);
    var removal, two := RemoveAll(one, d, ref);
    end := Apply(two, Commit(d));
    assert Leads(two, [Commit(d)], end) by {
      assert [Commit(d)][1..] == [];
    }
    LeadsOn(one, removal, two, [Commit(d)], end);
    LeadsOn(s, alone, one, removal + [Commit(d)], end);
    path := alone + (removal + [Commit(d)]);
  }

  predicate Lost(s: State, ref: Uuid, path: seq<Step>, end: State) {
    Leads(s, path, end) && Spares(path, ref) && ref !in end.refs
  }

  /** Whether a reference, once its upload has reported success, may yet disappear although nobody means
      it: if and only if some open bulk delete had found the file without a reference before. */
  lemma {:induction false} LostIffListed(start: State, path: seq<Step>, s: State, ref: Uuid, file: Uuid)
    requires Fresh(start) && Leads(start, path, s) && Enabled(s, Link(ref, file))
    ensures var linked := Apply(s, Link(ref, file));
      (exists more: seq<Step>, end: State :: Lost(linked, ref, more, end)) <==>
      (exists d :: d in s.deletes && Lists(s, d, file))
  {
    var linked := Apply(s, Link(ref, file));
    InvAlong(start, path, s);
    if exists d :: d in s.deletes && Lists(s, d, file) {
      var d :| d in s.deletes && Lists(s, d, file);
      assert Lists(linked, d, linked.refs[ref]);
      var more, end := TakenAlong(linked, d, ref);
      assert Lost(linked, ref, more, end);
    } else {
      forall d | d in linked.deletes ensures !Lists(linked, d, file) {
        assert !Lists(s, d, file);
      }
      assert !Deleting(linked, ref) by {
        forall d | d in linked.deletes && Open(linked, d) ensures ref !in linked.deletes[d].gone {
          assert Open(s, d) && s.deletes[d].gone <= s.refs.Keys;
        }
      }
      forall more: seq<Step>, end: State ensures !Lost(linked, ref, more, end) {
        if Lost(linked, ref, more, end) { SafeAlong(linked, more, end, ref, file); }
      }
    }
  }

  /** An upload of a file's content succeeds between the orphan search and the removal of the file:
      its reference and the file are gone at the end. */
  lemma UploadVanishes(file: Uuid, first: Uuid, second: Uuid) returns (path: seq<Step>, end: State)
    requires first != second
    ensures Leads(State({file}, map[first := file], map[]), path, end)
    ensures path == [Execute(0, {first}), Search(0), Link(second, file), RemoveFile(0, file), Commit(0)]
    ensures end.refs == map[] && end.files == {}
  {
    var s0 := State({file}, map[first := file], map[]);
    var s2 := Listing(file, first);
    end := Vanishing(file, first, second, s2);
    Prepend(Apply(s0, Execute(0, {first})), Search(0), [Link(second, file), RemoveFile(0, file), Commit(0)], end);
    path := [Search(0), Link(second, file), RemoveFile(0, file), Commit(0)];
    Prepend(s0, Execute(0, {first}), path, end);
    path := [Execute(0, {first})] + path;
  }

  lemma Vanishing(file: Uuid, first: Uuid, second: Uuid, s2: State) returns (end: State)
    requires first != second
    requires s2 == State({file}, map[first := file], map[0 := Transaction(Searched, {first}, {file}, {file}, {})])
    ensures Leads(s2, [Link(second, file), RemoveFile(0, file), Commit(0)], end)
    ensures end.refs == map[] && end.files == {}
  {
    var s3 := Apply(s2, Link(second, file));
    assert RefsTo(s3, file) == {first, second};
    var s4 := Apply(s3, RemoveFile(0, file));
    end := Apply(s4, Commit(0));
    Prepend(s4, Commit(0), [], end);
    Prepend(s3, RemoveFile(0, file), [Commit(0)], end);
    Prepend(s2, Link(second, file), [RemoveFile(0, file), Commit(0)], end);
  }

  lemma Prepend(s: State, step: Step, path: seq<Step>, end: State)
    requires Enabled(s, step) && Leads(Apply(s, step), path, end)
    ensures Leads(s, [step] + path, end)
  {
    assert ([step] + path)[1..] == path;
  }

  /** A bulk delete has removed the only reference and found the file to be without one. */
  lemma Listing(file: Uuid, first: Uuid) returns (s2: State)
    ensures
      var s0 := State({file}, map[first := file], map[]);
      && Enabled(s0, Execute(0, {first})) && Enabled(Apply(s0, Execute(0, {first})), Search(0))
      && s2 == Apply(Apply(s0, Execute(0, {first})), Search(0))
    ensures s2 == State({file}, map[first := file], map[0 := Transaction(Searched, {first}, {file}, {file}, {})])
  {
    var s0 := State({file}, map[first := file], map[]);
    var s1 := Apply(s0, Execute(0, {first}));
    assert s1.deletes[0].affected == {file};
    assert RefsTo(s1, file) == {first};
    s2 := Apply(s1, Search(0));
    assert Found(s1, s1.deletes[0]) == {file};
  }
}
