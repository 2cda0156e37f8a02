/**
 Backup history: retention and deletion of one node, then backup jobs, stale marking and deletions
 interleaved, with every stored file named by some history row.
 */
module Backups {
  import opened Wrappers
  import opened Lists
  import opened Tables

  datatype Status = Running | Completed | Failed

  /** An empty path marks a record whose backup never started. */
  datatype Record = Record(id: Uuid, configId: Option<Uuid>, storageId: Uuid, filePath: string, status: Status)

  type StoredFile = (Uuid, string)

  function FileOf(r: Record): StoredFile { (r.storageId, r.filePath) }

  /** What the outside does: the registered backends, the storages with a row and those whose row
      cannot be looked up, the files whose deletion fails. */
  datatype Outside = Outside(
    registry: set<Uuid>, storages: set<Uuid>, lookupFails: set<Uuid>, failing: set<StoredFile>)

  predicate Deletes(out: Outside, r: Record) { r.storageId in out.registry && FileOf(r) !in out.failing }

  function CompletedOf(config: Uuid): Record -> bool {
    (r: Record) => r.configId == Some(config) && r.status == Completed
  }

  function RecordOf(config: Uuid): Record -> bool { (r: Record) => r.configId == Some(config) }

  function DeletesBy(out: Outside): Record -> bool { (r: Record) => Deletes(out, r) }

  function Outlives(out: Outside): Record -> bool { (r: Record) => !Deletes(out, r) }

  function NotIn(gone: seq<Record>): Record -> bool { (r: Record) => r !in gone }

  /** Beyond the newest `count`. */
  function Older(records: seq<Record>, count: nat): seq<Record> { if count <= |records| then records[count..] else [] }

  function Newest(records: seq<Record>, count: nat): seq<Record> {
    if count <= |records| then records[..count] else records
  }

  function IdOf(): Record -> Uuid { (r: Record) => r.id }

  /** What a clean-up gets rid of. */
  function Cleaned(records: seq<Record>, config: Uuid, retention: int, out: Outside): seq<Record> {
    if retention < 1 then [] else Keep(Older(Keep(records, CompletedOf(config)), retention), DeletesBy(out))
  }

  lemma KeepTwice(records: seq<Record>, p: Record -> bool, q: Record -> bool)
    ensures Keep(Keep(records, p), q) == Keep(Keep(records, q), p)
  {
    var both := (r: Record) => p(r) && q(r);
    KeepKeep(records, p, q, both);
    KeepKeep(records, q, p, both);
  }

  /** How many completed records the config has among the first `k`, the newest. */
  function NewerCompleted(records: seq<Record>, config: Uuid, k: nat): nat
    requires k <= |records|
  {
    if k == 0 then 0
    else
      var r := records[k - 1];
      NewerCompleted(records, config, k - 1) + if r.configId == Some(config) && r.status == Completed then 1 else 0
  }

  /** What a clean-up removes, by position: completed records of the config with enough newer ones, whose
      storage has a backend that deletes the file. */
  predicate CleansAt(records: seq<Record>, config: Uuid, retention: int, out: Outside, k: nat)
    requires k < |records|
  {
    var r := records[k];
    && r.configId == Some(config) && r.status == Completed
    && 1 <= retention <= NewerCompleted(records, config, k)
    && r.storageId in out.registry && (r.storageId, r.filePath) !in out.failing
  }

  lemma {:induction false} KeepUpTo(records: seq<Record>, config: Uuid, k: nat)
    requires k <= |records|
    ensures |Keep(records[..k], CompletedOf(config))| == NewerCompleted(records, config, k)
  {
    if k == 0 {
      assert records[..0] == [];
    } else {
      KeepUpTo(records, config, k - 1);
      KeepSnoc(records, k - 1, CompletedOf(config));
    }
  }

  lemma {:induction false} PlaceInKept(records: seq<Record>, config: Uuid, k: nat)
    requires k < |records| && records[k].configId == Some(config) && records[k].status == Completed
    ensures
      var kept, n := Keep(records, CompletedOf(config)), NewerCompleted(records, config, k);
      n < |kept| && kept[n] == records[k]
  {
    var p := CompletedOf(config);
    KeepUpTo(records, config, k);
    KeepSnoc(records, k, p);
    KeepAppend(records[..k + 1], records[k + 1..], p);
    assert records[..k + 1] + records[k + 1..] == records;
  }

  lemma CleanedIs(records: seq<Record>, config: Uuid, retention: int, out: Outside, k: nat)
    requires DistinctBy(records, IdOf()) && k < |records|
    ensures records[k] in Cleaned(records, config, retention, out) <==> CleansAt(records, config, retention, out, k)
  {
    var r, kept := records[k], Keep(records, CompletedOf(config));
    KeepMembers(records, CompletedOf(config));
    KeepDistinctBy(records, IdOf(), CompletedOf(config));
    if retention >= 1 {
      KeepMember(Older(kept, retention), DeletesBy(out), r);
      if r.configId == Some(config) && r.status == Completed {
        PlaceInKept(records, config, k);
        OlderFrom(kept, retention, NewerCompleted(records, config, k));
      } else {
        assert r !in kept;
      }
    }
  }

  lemma OlderFrom(kept: seq<Record>, retention: nat, n: nat)
    requires DistinctBy(kept, IdOf()) && n < |kept|
    ensures kept[n] in Older(kept, retention) <==> retention <= n
  {
    if retention <= n {
      assert kept[retention..][n - retention] == kept[n];
    }
  }

  /** After a clean-up the completed records of the config are the newest `retention` and exactly those
      older ones whose file could not be deleted. */
  lemma {:induction false} RetentionHolds(records: seq<Record>, config: Uuid, retention: int, out: Outside)
    requires DistinctBy(records, IdOf()) && retention >= 1
    ensures
      var mine := (r: Record) => r.configId == Some(config) && r.status == Completed;
      var stays := (r: Record) => r.storageId !in out.registry || (r.storageId, r.filePath) in out.failing;
      var before := Keep(records, mine);
      Keep(Keep(records, NotIn(Cleaned(records, config, retention, out))), mine)
        == Newest(before, retention) + Keep(Older(before, retention), stays)
  {
    var mine := (r: Record) => r.configId == Some(config) && r.status == Completed;
    var stays := (r: Record) => r.storageId !in out.registry || (r.storageId, r.filePath) in out.failing;
    var left := Keep(records, NotIn(Cleaned(records, config, retention, out)));
    RetentionKeeps(records, config, retention, out);
    KeepSame(records, mine, CompletedOf(config));
    KeepSame(left, mine, CompletedOf(config));
    KeepSame(Older(Keep(records, mine), retention), stays, Outlives(out));
  }

  lemma {:induction false} RetentionKeeps(records: seq<Record>, config: Uuid, retention: int, out: Outside)
    requires DistinctBy(records, IdOf()) && retention >= 1
    ensures
      var before := Keep(records, CompletedOf(config));
      Keep(Keep(records, NotIn(Cleaned(records, config, retention, out))), CompletedOf(config))
        == Newest(before, retention) + Keep(Older(before, retention), Outlives(out))
  {
    var before := Keep(records, CompletedOf(config));
    var gone := Cleaned(records, config, retention, out);
    KeepTwice(records, NotIn(gone), CompletedOf(config));
    KeepDistinctBy(records, IdOf(), CompletedOf(config));
    var newest, older := Newest(before, retention), Older(before, retention);
    assert before == newest + older;
    KeepAppend(newest, older, NotIn(gone));
    KeepMembers(older, DeletesBy(out));
    KeepEverything(newest, NotIn(gone));
    KeepSame(older, NotIn(gone), Outlives(out));
  }

  // ----- Deleting -----

  function FilesOf(records: seq<Record>): set<StoredFile> { set r | r in records && r.filePath != "" :: FileOf(r) }

  /** Every stored file is named by a history row. */
  predicate AllNamed(records: seq<Record>, files: set<StoredFile>) {
    forall f | f in files :: f.1 != "" && exists r | r in records :: FileOf(r) == f
  }

  function IdOtherThan(id: Uuid): Record -> bool { (r: Record) => r.id != id }

  lemma {:induction false} RemoveOne(records: seq<Record>, gone: seq<Record>, r: Record)
    requires DistinctBy(records, IdOf()) && r in records
    ensures Keep(Keep(records, NotIn(gone)), IdOtherThan(r.id)) == Keep(records, NotIn(gone + [r]))
  {
    forall x | x in records ensures NotIn(gone + [r])(x) == (NotIn(gone)(x) && IdOtherThan(r.id)(x)) {
      assert x.id == r.id ==> x == r;
    }
    KeepKeep(records, NotIn(gone), IdOtherThan(r.id), NotIn(gone + [r]));
  }

  /** Taking records away together with their files leaves every other file named. */
  lemma RemovingKeepsNamed(records: seq<Record>, files: set<StoredFile>, gone: seq<Record>)
    requires AllNamed(records, files)
    ensures AllNamed(Keep(records, NotIn(gone)), files - FilesOf(gone))
  {
    KeepMembers(records, NotIn(gone));
    forall f | f in files - FilesOf(gone)
      ensures f.1 != "" && exists r | r in Keep(records, NotIn(gone)) :: FileOf(r) == f
    {
      var r :| r in records && FileOf(r) == f;
      assert r in Keep(records, NotIn(gone));
    }
  }

  /** Taking only the row, as when its storage is gone, leaves its file without a name unless another
      row has it. */
  lemma {:induction false} RowOnlyOrphansIff(records: seq<Record>, files: set<StoredFile>, r: Record)
    requires AllNamed(records, files) && DistinctBy(records, IdOf()) && r in records
    ensures AllNamed(Keep(records, IdOtherThan(r.id)), files)
      <==> (FileOf(r) in files ==> exists x | x in records :: x.id != r.id && FileOf(x) == FileOf(r))
  {
    KeepMembers(records, IdOtherThan(r.id));
    var rest := Keep(records, IdOtherThan(r.id));
    if FileOf(r) in files ==> exists x | x in records :: x.id != r.id && FileOf(x) == FileOf(r) {
      forall f | f in files ensures exists x | x in rest :: FileOf(x) == f {
        var x :| x in records && FileOf(x) == f;
        if x.id == r.id {
          assert x == r;
          var y :| y in records && y.id != r.id && FileOf(y) == FileOf(r);
          assert y in rest;
        } else {
          assert x in rest;
        }
      }
    } else {
      assert forall x | x in rest :: x in records && x.id != r.id;
    }
  }

  /** What deleting everything of a config gets rid of. */
  function Purged(records: seq<Record>, config: Uuid, out: Outside): seq<Record> {
    Keep(Keep(records, RecordOf(config)), PurgedBy(out))
  }

  function PurgedBy(out: Outside): Record -> bool { (r: Record) => r.filePath == "" || Deletes(out, r) }

  datatype DeleteOutcome = Deleted | NotFound | StorageDisabled | StorageError | LookupError

  /** Some record that is gone had this file. */
  ghost predicate WentWith(before: seq<Record>, gone: nat -> bool, f: StoredFile) {
    exists k ::
      0 <= k < |before| && gone(k) && before[k].filePath != "" && f == (before[k].storageId, before[k].filePath)
  }

  /** What removing some records by position leaves: the others, in order, and all files but theirs. */
  ghost predicate RemovesWhere(before: seq<Record>, files: set<StoredFile>, after: seq<Record>,
                               files': set<StoredFile>, gone: nat -> bool) {
    && (forall k :: 0 <= k < |before| ==> (before[k] in after <==> !gone(k)))
    && (forall r | r in after :: r in before)
    && (forall f :: f in files' <==> (f in files && !WentWith(before, gone, f)))
  }

  lemma RemovingByPosition(records: seq<Record>, files: set<StoredFile>, removed: seq<Record>, gone: nat -> bool)
    requires forall r | r in removed :: r in records
    requires forall k :: 0 <= k < |records| ==> (records[k] in removed <==> gone(k))
    ensures RemovesWhere(records, files, Keep(records, NotIn(removed)), files - FilesOf(removed), gone)
  {
    KeepMembers(records, NotIn(removed));
    forall f ensures f in FilesOf(removed) <==> WentWith(records, gone, f) {
      if f in FilesOf(removed) {
        var r :| r in removed && r.filePath != "" && FileOf(r) == f;
        var k :| 0 <= k < |records| && records[k] == r;
      }
    }
  }

  lemma CleanedByPosition(records: seq<Record>, files: set<StoredFile>, config: Uuid, retention: int, out: Outside)
    requires DistinctBy(records, IdOf())
    ensures
      var removed := Cleaned(records, config, retention, out);
      RemovesWhere(records, files, Keep(records, NotIn(removed)), files - FilesOf(removed),
        (k: nat) => k < |records| && CleansAt(records, config, retention, out, k))
  {
    var removed := Cleaned(records, config, retention, out);
    if retention >= 1 {
      KeepMembers(records, CompletedOf(config));
      KeepMembers(Older(Keep(records, CompletedOf(config)), retention), DeletesBy(out));
    }
    forall k | 0 <= k < |records| ensures records[k] in removed <==> CleansAt(records, config, retention, out, k) {
      CleanedIs(records, config, retention, out, k);
    }
    RemovingByPosition(records, files, removed,
      (k: nat) => k < |records| && CleansAt(records, config, retention, out, k));
  }

  /** What deleting everything of a config removes. */
  predicate PurgesAt(records: seq<Record>, config: Uuid, out: Outside, k: nat)
    requires k < |records|
  {
    var r := records[k];
    && r.configId == Some(config)
    && (r.filePath == "" || (r.storageId in out.registry && (r.storageId, r.filePath) !in out.failing))
  }

  lemma PurgedByPosition(records: seq<Record>, files: set<StoredFile>, config: Uuid, out: Outside)
    ensures
      var removed := Purged(records, config, out);
      RemovesWhere(records, files, Keep(records, NotIn(removed)), files - FilesOf(removed),
        (k: nat) => k < |records| && PurgesAt(records, config, out, k))
  {
    KeepMembers(records, RecordOf(config));
    KeepMembers(Keep(records, RecordOf(config)), PurgedBy(out));
    RemovingByPosition(records, files, Purged(records, config, out),
      (k: nat) => k < |records| && PurgesAt(records, config, out, k));
  }

  class History {
    var records: seq<Record>   // newest first
    var files: set<StoredFile>

    ghost predicate Valid()
      reads this
    {
      DistinctBy(records, IdOf())
    }

    constructor (records: seq<Record>, files: set<StoredFile>)
      requires DistinctBy(records, IdOf())
      ensures Valid() && this.records == records && this.files == files
    {
      this.records, this.files := records, files;
    }

    method DeleteFromStorage(r: Record, out: Outside) returns (ok: bool)
      modifies this`files
      ensures ok <==> Deletes(out, r)
      ensures files == if ok then old(files) - {FileOf(r)} else old(files)
    {
      ok := r.storageId in out.registry && FileOf(r) !in out.failing;
      if ok { files := files - {FileOf(r)}; }
    }

    method DeleteRow(id: Uuid)
      modifies this`records
      ensures records == Keep(old(records), IdOtherThan(id))
    {
      records := Keep(records, IdOtherThan(id));
    }

    /** File first, then row; the row stays if the file does. A record without a file only has its row. */
    method RemoveBackup(r: Record, out: Outside) returns (deleted: bool)
      modifies this
      ensures deleted <==> PurgedBy(out)(r)
      ensures records == if deleted then Keep(old(records), IdOtherThan(r.id)) else old(records)
      ensures files == if deleted then old(files) - FilesOf([r]) else old(files)
    {
      if r.filePath == "" {
        deleted := true;
      } else {
        deleted := DeleteFromStorage(r, out);
      }
      if deleted { DeleteRow(r.id); }
    }

    /** Tries every one of them. */
    method RemoveAll(candidates: seq<Record>, out: Outside) returns (deleted: nat)
      requires Valid() && DistinctBy(candidates, IdOf()) && forall r | r in candidates :: r in records
      modifies this
      ensures deleted == |Keep(candidates, PurgedBy(out))|
      ensures records == Keep(old(records), NotIn(Keep(candidates, PurgedBy(out))))
      ensures files == old(files) - FilesOf(Keep(candidates, PurgedBy(out)))
    {
      KeepEverything(records, NotIn([]));
      deleted := 0;
      ghost var gone: seq<Record> := [];
      for i := 0 to |candidates|
        invariant gone == Keep(candidates[..i], PurgedBy(out)) && deleted == |gone|
        invariant records == Keep(old(records), NotIn(gone))
        invariant files == old(files) - FilesOf(gone)
      {
        var r := candidates[i];
        KeepSnoc(candidates, i, PurgedBy(out));
        var ok := RemoveBackup(r, out);
        if ok {
          RemoveOne(old(records), gone, r);
          FilesOfSnoc(old(files), gone, r);
          deleted, gone := deleted + 1, gone + [r];
        }
      }
      assert candidates[..|candidates|] == candidates;
    }

    method CleanupOldBackups(config: Uuid, retention: int, out: Outside) returns (deleted: nat)
      requires Valid() && AllUploaded(records)
      modifies this
      ensures deleted == |Cleaned(old(records), config, retention, out)|
      ensures records == Keep(old(records), NotIn(Cleaned(old(records), config, retention, out)))
      ensures files == old(files) - FilesOf(Cleaned(old(records), config, retention, out))
      ensures RemovesWhere(old(records), old(files), records, files,
        (k: nat) => k < |old(records)| && CleansAt(old(records), config, retention, out, k))
    {
      CleanedByPosition(records, files, config, retention, out);
      KeepEverything(records, NotIn([]));
      if retention < 1 { return 0; }
      var completed := Keep(records, (r: Record) => r.configId == Some(config) && r.status == Completed);
      KeepSame(records, (r: Record) => r.configId == Some(config) && r.status == Completed, CompletedOf(config));
      var candidates := if retention <= |completed| then completed[retention..] else [];
      CandidatesAreRecords(records, CompletedOf(config), retention);
      KeepSame(candidates, PurgedBy(out), DeletesBy(out));
      deleted := RemoveAll(candidates, out);
    }

    method DeleteAllBackupsForConfig(config: Uuid, out: Outside) returns (deleted: nat)
      requires Valid()
      modifies this
      ensures deleted == |Purged(old(records), config, out)|
      ensures records == Keep(old(records), NotIn(Purged(old(records), config, out)))
      ensures files == old(files) - FilesOf(Purged(old(records), config, out))
      ensures RemovesWhere(old(records), old(files), records, files,
        (k: nat) => k < |old(records)| && PurgesAt(old(records), config, out, k))
    {
      PurgedByPosition(records, files, config, out);
      var all := Keep(records, (r: Record) => r.configId == Some(config));
      KeepSame(records, (r: Record) => r.configId == Some(config), RecordOf(config));
      KeepMembers(records, RecordOf(config));
      KeepDistinctBy(records, IdOf(), RecordOf(config));
      deleted := RemoveAll(all, out);
    }

    method DeleteBackup(id: Uuid, out: Outside) returns (outcome: DeleteOutcome)
      requires Valid()
      modifies this
      ensures outcome == NotFound <==> !HasId(old(records), id)
      ensures outcome == Deleted ==> records == Keep(old(records), IdOtherThan(id))
      ensures outcome != Deleted ==> records == old(records) && files == old(files)
      ensures forall r | r in old(records) && r.id == id ::
        && (outcome == StorageError <==>
              r.filePath != "" && r.storageId in out.registry && (r.storageId, r.filePath) in out.failing)
        && (outcome == LookupError <==>
              r.filePath != "" && r.storageId !in out.registry && r.storageId in out.lookupFails)
        && (outcome == StorageDisabled <==>
              r.filePath != "" && r.storageId !in out.registry && r.storageId !in out.lookupFails
                && r.storageId in out.storages)
        && (outcome == Deleted ==>
              files == old(files)
                - if r.filePath != "" && r.storageId in out.registry then {(r.storageId, r.filePath)} else {})
      ensures forall r | r in old(records) :: r in records <==> outcome != Deleted || r.id != id
    {
      var found := First(records, WithId(id));
      FirstFound(records, WithId(id));
      match found
      case None => outcome := NotFound;
      case Some(r) =>
        assert forall x | x in records && x.id == id :: x == r;
        if r.filePath != "" {
          if r.storageId in out.registry {
            var ok := DeleteFromStorage(r, out);
            if !ok { return StorageError; }
          } else {
            if r.storageId in out.lookupFails { return LookupError; }
            if r.storageId in out.storages { return StorageDisabled; }
          }
        }
        DeleteRow(id);
        KeepMembers(old(records), IdOtherThan(id));
        outcome := Deleted;
    }
  }

  function WithId(id: Uuid): Record -> bool { (r: Record) => r.id == id }

  predicate HasId(records: seq<Record>, id: Uuid) { exists r | r in records :: r.id == id }

  /** A completed record has the path of its upload. */
  predicate AllUploaded(records: seq<Record>) { forall r | r in records && r.status == Completed :: r.filePath != "" }

  lemma FilesOfSnoc(files: set<StoredFile>, gone: seq<Record>, r: Record)
    ensures files - FilesOf(gone) - FilesOf([r]) == files - FilesOf(gone + [r])
  {
    assert FilesOf(gone + [r]) == FilesOf(gone) + FilesOf([r]);
  }

  lemma KeepSnoc(records: seq<Record>, i: nat, p: Record -> bool)
    requires i < |records|
    ensures Keep(records[..i + 1], p) == if p(records[i]) then Keep(records[..i], p) + [records[i]]
      else Keep(records[..i], p)
  {
    assert records[..i + 1] == records[..i] + [records[i]];
    KeepAppend(records[..i], [records[i]], p);
    assert [records[i]][1..] == [];
  }

  lemma CandidatesAreRecords(records: seq<Record>, p: Record -> bool, count: nat)
    requires DistinctBy(records, IdOf())
    ensures var candidates := Older(Keep(records, p), count);
      DistinctBy(candidates, IdOf()) && forall r | r in candidates :: r in records && p(r)
  {
    KeepMembers(records, p);
    KeepDistinctBy(records, IdOf(), p);
  }

  /** A clean-up's outcome does not depend on the order in which it takes the candidates. */
  lemma OrderDoesNotMatter(records: seq<Record>, one: seq<Record>, two: seq<Record>, p: Record -> bool)
    requires DistinctBy(one, IdOf()) && DistinctBy(two, IdOf()) && forall r :: r in one <==> r in two
    ensures Keep(records, NotIn(Keep(one, p))) == Keep(records, NotIn(Keep(two, p)))
    ensures FilesOf(Keep(one, p)) == FilesOf(Keep(two, p)) && |Keep(one, p)| == |Keep(two, p)|
  {
    var a, b := Keep(one, p), Keep(two, p);
    KeepMembers(one, p);
    KeepMembers(two, p);
    KeepSame(records, NotIn(a), NotIn(b));
    KeepDistinctBy(one, IdOf(), p);
    KeepDistinctBy(two, IdOf(), p);
    DistinctCount(a);
    DistinctCount(b);
    assert Elements(a) == Elements(b);
  }
}
