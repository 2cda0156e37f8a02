/**
 One node's tier service: the scan for idle files, the copies to cold storage it schedules, the
 archiving of hot copies that have been replaced, and the way back.
 */
module TierService {
  import opened Wrappers
  import opened Lists
  import opened Tables
  import opened Tiering

  const LIMIT: nat := 100

  /** A hot copy to be copied to cold storage for a project. */
  datatype Archivable = Archivable(locationId: Uuid, fileId: Uuid, source: Uuid, projectId: Uuid)

  predicate IsActive(tasks: seq<Task>, fileId: Uuid) { exists t | t in tasks :: t.fileId == fileId && t.active }

  predicate Qualifies(c: Catalog, locations: Locations, tasks: seq<Task>, now: Time, id: Uuid, projectId: Uuid) {
    && id in locations && locations[id].status == Synced && OnEnabledHot(c, locations[id])
    && projectId in c.coldDays && Idle(c, locations[id], projectId, now)
    && !SyncedCold(c, locations, locations[id].fileId) && !IsActive(tasks, locations[id].fileId)
  }

  predicate Describes(c: Catalog, locations: Locations, tasks: seq<Task>, now: Time, row: Archivable) {
    && Qualifies(c, locations, tasks, now, row.locationId, row.projectId)
    && row.fileId == locations[row.locationId].fileId && row.source == locations[row.locationId].storageId
  }

  /** NULLS FIRST, then by time. */
  predicate NoLater(a: Option<Time>, b: Option<Time>) { a.None? || (b.Some? && a.value <= b.value) }

  /** By time from the newest, NULLS LAST. */
  predicate NoOlder(a: Option<Time>, b: Option<Time>) { b.None? || (a.Some? && a.value >= b.value) }

  function Accessed(locations: Locations, row: Archivable): Option<Time> {
    if row.locationId in locations then locations[row.locationId].lastAccessed else None
  }

  predicate NotAfter(locations: Locations, a: Archivable, b: Archivable) {
    a.fileId < b.fileId || (a.fileId == b.fileId && NoLater(Accessed(locations, a), Accessed(locations, b)))
  }

  lemma NotAfterThrough(locations: Locations, a: Archivable, b: Archivable, c: Archivable)
    requires NotAfter(locations, a, b) && NotAfter(locations, b, c)
    ensures NotAfter(locations, a, c)
  {
  }

  predicate Ascending(rows: seq<Archivable>) { forall i, j :: 0 <= i < j < |rows| ==> rows[i].fileId < rows[j].fileId }

  predicate BehindAll(rows: seq<Archivable>, fileId: Uuid) { forall row | row in rows :: row.fileId < fileId }

  function Files(rows: seq<Archivable>): set<Uuid> { set row | row in rows :: row.fileId }

  /** No copy of the file that qualifies has been idle for longer. */
  predicate LongestIdle(c: Catalog, locations: Locations, tasks: seq<Task>, now: Time, row: Archivable) {
    forall id, p | id in locations && p in c.coldDays && Qualifies(c, locations, tasks, now, id, p) ::
      locations[id].fileId == row.fileId ==> NoLater(Accessed(locations, row), locations[id].lastAccessed)
  }

  predicate IsRow(c: Catalog, locations: Locations, tasks: seq<Task>, now: Time, row: Archivable) {
    Describes(c, locations, tasks, now, row) && LongestIdle(c, locations, tasks, now, row)
  }

  /** One row a file, the longest idle copy, by file; only files behind a full page are missing. */
  predicate IsScan(c: Catalog, locations: Locations, tasks: seq<Task>, now: Time, limit: nat, rows: seq<Archivable>) {
    && Ascending(rows) && |rows| <= limit
    && (forall row | row in rows :: IsRow(c, locations, tasks, now, row))
    && (forall id, p | id in locations && p in c.coldDays && Qualifies(c, locations, tasks, now, id, p) ::
          || locations[id].fileId in Files(rows)
          || (|rows| == limit && BehindAll(rows, locations[id].fileId)))
  }

  function RowOf(locations: Locations, id: Uuid, projectId: Uuid): Archivable
    requires id in locations
  {
    Archivable(id, locations[id].fileId, locations[id].storageId, projectId)
  }

  /** Half a scan: rows chosen so far, and the rows still open, all of later files. */
  predicate HalfScan(c: Catalog, locations: Locations, tasks: seq<Task>, now: Time, limit: nat, rows: seq<Archivable>,
                     open: set<Archivable>) {
    && Ascending(rows) && |rows| <= limit
    && (forall row | row in rows :: IsRow(c, locations, tasks, now, row))
    && (forall row | row in open :: Describes(c, locations, tasks, now, row) && BehindAll(rows, row.fileId))
    && (forall id, p | id in locations && p in c.coldDays && Qualifies(c, locations, tasks, now, id, p) ::
          RowOf(locations, id, p) in open || locations[id].fileId in Files(rows))
  }

  function Without(open: set<Archivable>, fileId: Uuid): set<Archivable> {
    set row | row in open && row.fileId != fileId
  }

  lemma HalfScanStep(c: Catalog, locations: Locations, tasks: seq<Task>, now: Time, limit: nat, rows: seq<Archivable>,
                     open: set<Archivable>, row: Archivable)
    requires HalfScan(c, locations, tasks, now, limit, rows, open) && row in open && |rows| < limit
    requires forall other | other in open :: NotAfter(locations, row, other)
    ensures HalfScan(c, locations, tasks, now, limit, rows + [row], Without(open, row.fileId))
  {
    assert Files(rows + [row]) == Files(rows) + {row.fileId};
    assert LongestIdle(c, locations, tasks, now, row) by {
      forall id, p | id in locations && p in c.coldDays && Qualifies(c, locations, tasks, now, id, p)
        && locations[id].fileId == row.fileId
        ensures NoLater(Accessed(locations, row), locations[id].lastAccessed)
      {
        assert row.fileId !in Files(rows);
        assert NotAfter(locations, row, RowOf(locations, id, p));
      }
    }
    forall other | other in Without(open, row.fileId) ensures BehindAll(rows + [row], other.fileId) {
      assert NotAfter(locations, row, other);
    }
  }

  function ServesFile(c: Catalog, fileId: Uuid): Storage -> bool {
    (s: Storage) => !s.isHot && s.enabled && (s.owner.None? || (fileId, s.owner.value) in c.references)
  }

  /** The oldest enabled cold storage that is shared or belongs to a project of the file. */
  function ColdStorageFor(c: Catalog, fileId: Uuid): Option<Storage> { First(c.storages, ServesFile(c, fileId)) }

  function ArchiveTask(c: Catalog, registry: set<Uuid>, row: Archivable): seq<Task> {
    match ColdStorageFor(c, row.fileId)
    case None => []
    case Some(s) => if s.id in registry then [Task(row.fileId, row.source, s.id, Some(row.projectId), true)] else []
  }

  function ArchiveTasks(c: Catalog, registry: set<Uuid>, rows: seq<Archivable>): seq<Task> {
    if rows == [] then [] else ArchiveTask(c, registry, rows[0]) + ArchiveTasks(c, registry, rows[1..])
  }

  lemma {:induction false} TasksForAbsent(c: Catalog, registry: set<Uuid>, rows: seq<Archivable>, fileId: Uuid)
    requires fileId !in Files(rows)
    ensures TasksFor(ArchiveTasks(c, registry, rows), fileId) == 0
  {
    if rows != [] {
      assert rows[0] in rows;
      assert Files(rows[1..]) <= Files(rows);
      TasksForAbsent(c, registry, rows[1..], fileId);
      var head, tail := ArchiveTask(c, registry, rows[0]), ArchiveTasks(c, registry, rows[1..]);
      if head == [] { assert head + tail == tail; } else { assert (head + tail)[1..] == tail; }
    }
  }

  predicate IsCopyToCold(c: Catalog, rows: seq<Archivable>, t: Task) {
    && t.source != t.target && t.active && t.fileId in Files(rows)
    && exists s | s in c.storages :: s.id == t.target && !s.isHot && s.enabled
  }

  /** Every copy job leads from the hot copy of a scanned file to an enabled cold storage. */
  lemma {:induction false} CopiesGoToCold(c: Catalog, locations: Locations, tasks: seq<Task>, now: Time,
                                          registry: set<Uuid>, rows: seq<Archivable>)
    requires DistinctStorages(c) && forall row | row in rows :: Describes(c, locations, tasks, now, row)
    ensures forall t | t in ArchiveTasks(c, registry, rows) :: IsCopyToCold(c, rows, t)
  {
    if rows != [] {
      assert rows[0] in rows && Files(rows[1..]) <= Files(rows);
      FirstFound(c.storages, ServesFile(c, rows[0].fileId));
      CopiesGoToCold(c, locations, tasks, now, registry, rows[1..]);
    }
  }

  /** The k-th storage, the first that is cold, enabled, and shared or of a project with the file. */
  predicate FirstColdFor(c: Catalog, fileId: Uuid, k: int) {
    && 0 <= k < |c.storages| && MayTake(c, fileId, c.storages[k])
    && forall j :: 0 <= j < k ==> !MayTake(c, fileId, c.storages[j])
  }

  predicate MayTake(c: Catalog, fileId: Uuid, s: Storage) {
    && !s.isHot && s.enabled
    && (s.owner.Some? ==> exists pair | pair in c.references :: pair.0 == fileId && pair.1 == s.owner.value)
  }

  /** The copy of a scanned row's file, from where it was scanned, for the row's project. */
  ghost predicate IsArchiveTask(c: Catalog, registry: set<Uuid>, row: Archivable, t: Task) {
    && t.fileId == row.fileId && t.source == row.source && t.projectId == Some(row.projectId) && t.active
    && exists k :: FirstColdFor(c, row.fileId, k) && t.target == c.storages[k].id && t.target in registry
  }

  ghost predicate HasUsableCold(c: Catalog, registry: set<Uuid>, fileId: Uuid) {
    exists k :: FirstColdFor(c, fileId, k) && c.storages[k].id in registry
  }

  /** One copy for each scanned file whose first suitable storage has a backend; no others. */
  ghost predicate ArchivesScan(c: Catalog, registry: set<Uuid>, rows: seq<Archivable>, added: seq<Task>) {
    && (forall t | t in added :: exists row | row in rows :: IsArchiveTask(c, registry, row, t))
    && (forall row | row in rows ::
          (exists t | t in added :: t.fileId == row.fileId) <==> HasUsableCold(c, registry, row.fileId))
    && (forall i, j :: 0 <= i < j < |added| ==> added[i].fileId != added[j].fileId)
  }

  lemma ColdStorageIs(c: Catalog, fileId: Uuid)
    ensures
      var cold := ColdStorageFor(c, fileId);
      && (cold.Some? ==> exists k :: FirstColdFor(c, fileId, k) && c.storages[k] == cold.value)
      && (cold.None? ==> forall k :: !FirstColdFor(c, fileId, k))
      && (forall k, j :: FirstColdFor(c, fileId, k) && FirstColdFor(c, fileId, j) ==> k == j)
  {
    forall s: Storage ensures ServesFile(c, fileId)(s) == MayTake(c, fileId, s) {
      if s.owner.Some? && (fileId, s.owner.value) in c.references {
        var pair := (fileId, s.owner.value);
        assert pair in c.references && pair.0 == fileId && pair.1 == s.owner.value;
      }
    }
    FirstFound(c.storages, ServesFile(c, fileId));
    if ColdStorageFor(c, fileId).Some? {
      var k := FirstIndex(c.storages, ServesFile(c, fileId));
      assert FirstColdFor(c, fileId, k);
    }
  }

  lemma ArchiveTaskIs(c: Catalog, registry: set<Uuid>, row: Archivable)
    ensures
      var head := ArchiveTask(c, registry, row);
      if HasUsableCold(c, registry, row.fileId)
      then |head| == 1 && IsArchiveTask(c, registry, row, head[0]) && head[0].fileId == row.fileId
      else head == []
  {
    ColdStorageIs(c, row.fileId);
  }

  /** Whatever is done for each row. */
  lemma {:induction false} EachRow(c: Catalog, registry: set<Uuid>, rows: seq<Archivable>)
    ensures forall t | t in ArchiveTasks(c, registry, rows) :: exists row | row in rows ::
      t in ArchiveTask(c, registry, row)
    ensures forall row, t | row in rows && t in ArchiveTask(c, registry, row) :: t in ArchiveTasks(c, registry, rows)
    ensures |ArchiveTasks(c, registry, rows)| <= |rows|
  {
    if rows != [] {
      EachRow(c, registry, rows[1..]);
      assert rows == [rows[0]] + rows[1..];
    }
  }

  lemma {:induction false} TasksArchiveScan(c: Catalog, registry: set<Uuid>, rows: seq<Archivable>)
    requires Ascending(rows)
    ensures ArchivesScan(c, registry, rows, ArchiveTasks(c, registry, rows))
    ensures |ArchiveTasks(c, registry, rows)| <= |rows|
  {
    var added := ArchiveTasks(c, registry, rows);
    EachRow(c, registry, rows);
    forall row ensures |ArchiveTask(c, registry, row)| <= 1 {
      ArchiveTaskIs(c, registry, row);
    }
    forall t | t in added ensures exists row | row in rows :: IsArchiveTask(c, registry, row, t) {
      var row :| row in rows && t in ArchiveTask(c, registry, row);
      ArchiveTaskIs(c, registry, row);
    }
    forall row | row in rows
      ensures (exists t | t in added :: t.fileId == row.fileId) <==> HasUsableCold(c, registry, row.fileId)
    {
      ArchiveTaskIs(c, registry, row);
      if t :| t in added && t.fileId == row.fileId {
        var other :| other in rows && t in ArchiveTask(c, registry, other);
        ArchiveTaskIs(c, registry, other);
      }
      if HasUsableCold(c, registry, row.fileId) {
        assert ArchiveTask(c, registry, row)[0] in added;
      }
    }
    OneEach(c, registry, rows);
  }

  lemma {:induction false} OneEach(c: Catalog, registry: set<Uuid>, rows: seq<Archivable>)
    requires Ascending(rows)
    ensures
      var added := ArchiveTasks(c, registry, rows);
      forall i, j :: 0 <= i < j < |added| ==> added[i].fileId != added[j].fileId
  {
    if rows != [] {
      var head, tail := ArchiveTask(c, registry, rows[0]), ArchiveTasks(c, registry, rows[1..]);
      OneEach(c, registry, rows[1..]);
      EachRow(c, registry, rows[1..]);
      ArchiveTaskIs(c, registry, rows[0]);
      forall t | t in tail ensures t.fileId != rows[0].fileId {
        var row :| row in rows[1..] && t in ArchiveTask(c, registry, row);
        ArchiveTaskIs(c, registry, row);
      }
    }
  }

  /** A scanned file gets exactly one copy job if it has a usable cold storage, none otherwise. */
  lemma {:induction false} OneTaskPerFile(c: Catalog, registry: set<Uuid>, rows: seq<Archivable>, k: nat)
    requires k < |rows| && Ascending(rows)
    ensures
      TasksFor(ArchiveTasks(c, registry, rows), rows[k].fileId)
      == if HasUsableCold(c, registry, rows[k].fileId) then 1 else 0
  {
    ArchiveTaskIs(c, registry, rows[0]);
    var head, tail := ArchiveTask(c, registry, rows[0]), ArchiveTasks(c, registry, rows[1..]);
    if k > 0 {
      OneTaskPerFile(c, registry, rows[1..], k - 1);
    } else {
      TasksForAbsent(c, registry, rows[1..], rows[0].fileId);
    }
    if head == [] { assert head + tail == tail; } else { assert (head + tail)[1..] == tail; }
  }

  class TierService {
    const catalog: Catalog
    const registry: set<Uuid>
    var locations: Locations
    var tasks: seq<Task>
    var now: Time

    constructor (catalog: Catalog, registry: set<Uuid>, locations: Locations, tasks: seq<Task>, now: Time)
      ensures this.catalog == catalog && this.registry == registry
      ensures this.locations == locations && this.tasks == tasks && this.now == now
    {
      this.catalog, this.registry, this.locations, this.tasks, this.now := catalog, registry, locations, tasks, now;
    }

    method FindArchivableFiles(limit: nat) returns (rows: seq<Archivable>)
      ensures IsScan(catalog, locations, tasks, now, limit, rows)
    {
      rows := [];
      var open := Joined();
      while open != {} && |rows| < limit
        invariant HalfScan(catalog, locations, tasks, now, limit, rows, open)
        decreases limit - |rows|
      {
        var row := FirstOf(open);
        HalfScanStep(catalog, locations, tasks, now, limit, rows, open, row);
        rows, open := rows + [row], Without(open, row.fileId);
      }
    }

    /** FROM and WHERE: copies with their storages, references and projects. */
    method Joined() returns (rows: set<Archivable>)
      ensures forall row | row in rows :: Describes(catalog, locations, tasks, now, row)
      ensures forall id, p | id in locations && p in catalog.coldDays
        && Qualifies(catalog, locations, tasks, now, id, p) ::
        RowOf(locations, id, p) in rows
    {
      var archived := set id | id in locations && locations[id].status == Synced
        && (exists s | s in catalog.storages :: s.id == locations[id].storageId && !s.isHot && s.enabled) ::
        locations[id].fileId;
      var underWay := set t | t in tasks && t.active :: t.fileId;
      rows := set id, p |
        && id in locations && p in catalog.coldDays && (locations[id].fileId, p) in catalog.references
        && (exists s | s in catalog.storages :: s.id == locations[id].storageId && s.isHot && s.enabled)
        && locations[id].status == Synced
        && (locations[id].lastAccessed.None?
            || locations[id].lastAccessed.value + catalog.coldDays[p] * (24 * 60 * 60) < now)
        && locations[id].fileId !in archived && locations[id].fileId !in underWay ::
        Archivable(id, locations[id].fileId, locations[id].storageId, p);
      forall id, p | id in locations && p in catalog.coldDays && Qualifies(catalog, locations, tasks, now, id, p)
        ensures RowOf(locations, id, p) in rows
      {
        assert locations[id].fileId !in archived && locations[id].fileId !in underWay;
      }
      forall id | id in locations && (SyncedCold(catalog, locations, locations[id].fileId))
        ensures locations[id].fileId in archived
      {
      }
    }

    /** ORDER BY file, then access, never accessed first. */
    method FirstOf(open: set<Archivable>) returns (first: Archivable)
      requires open != {} && forall row | row in open :: row.locationId in locations
      ensures first in open && forall other | other in open :: NotAfter(locations, first, other)
    {
      first :| first in open;
      var left := open - {first};
      while left != {}
        invariant left <= open && first in open
        invariant forall other | other in open - left :: NotAfter(locations, first, other)
        decreases |left|
      {
        var row :| row in left;
        var a, b := locations[row.locationId].lastAccessed, locations[first.locationId].lastAccessed;
        assert a == Accessed(locations, row) && b == Accessed(locations, first);
        if row.fileId < first.fileId
           || (row.fileId == first.fileId && b.Some? && (a.None? || a.value < b.value)) {
          forall other | NotAfter(locations, first, other) ensures NotAfter(locations, row, other) {
            NotAfterThrough(locations, row, first, other);
          }
          first := row;
        }
        left := left - {row};
      }
    }

    method Schedule(rows: seq<Archivable>) returns (created: nat)
      modifies this`tasks
      ensures tasks == old(tasks) + ArchiveTasks(catalog, registry, rows)
      ensures created == |ArchiveTasks(catalog, registry, rows)|
    {
      created := 0;
      ghost var all := ArchiveTasks(catalog, registry, rows);
      assert rows[0..] == rows;
      for i := 0 to |rows|
        invariant tasks + ArchiveTasks(catalog, registry, rows[i..]) == old(tasks) + all
        invariant |tasks| == |old(tasks)| + created
      {
        ghost var rest := ArchiveTasks(catalog, registry, rows[i + 1..]);
        assert rows[i..][1..] == rows[i + 1..] && [] + rest == rest;
        var cold := FindColdStorage(rows[i].fileId);
        if cold.None? || cold.value.id !in registry {
          assert ArchiveTask(catalog, registry, rows[i]) == [];
        } else {
          var task := Task(rows[i].fileId, rows[i].source, cold.value.id, Some(rows[i].projectId), true);
          assert ArchiveTask(catalog, registry, rows[i]) == [task];
          assert tasks + ([task] + rest) == tasks + [task] + rest;
          tasks := tasks + [task];
          created := created + 1;
        }
      }
    }

    /** The oldest that is cold, enabled, and shared or of a project of the file. */
    method FindColdStorage(fileId: Uuid) returns (cold: Option<Storage>)
      ensures cold == ColdStorageFor(catalog, fileId)
    {
      var projects := set pair | pair in catalog.references && pair.0 == fileId :: pair.1;
      for i := 0 to |catalog.storages|
        invariant forall k :: 0 <= k < i ==> !ServesFile(catalog, fileId)(catalog.storages[k])
      {
        var s := catalog.storages[i];
        if !s.isHot && s.enabled && (s.owner.None? || s.owner.value in projects) {
          FirstIsFirst(catalog.storages, ServesFile(catalog, fileId), i);
          return Some(s);
        }
        assert s.owner.Some? && (fileId, s.owner.value) in catalog.references ==> s.owner.value in projects;
      }
      FirstFound(catalog.storages, ServesFile(catalog, fileId));
      cold := None;
    }

    method CreateArchiveTasks() returns (created: nat)
      modifies this`tasks
      ensures exists rows ::
        && IsScan(catalog, locations, old(tasks), now, LIMIT, rows)
        && tasks == old(tasks) + ArchiveTasks(catalog, registry, rows)
        && created == |ArchiveTasks(catalog, registry, rows)|
        && ArchivesScan(catalog, registry, rows, tasks[|old(tasks)|..])
      ensures created <= 100 && old(tasks) <= tasks && |tasks| == |old(tasks)| + created
    {
      var rows := FindArchivableFiles(LIMIT);
      created := Schedule(rows);
      TasksArchiveScan(catalog, registry, rows);
      assert tasks[|old(tasks)|..] == ArchiveTasks(catalog, registry, rows);
    }

    /** The ids of at most `limit` ripe locations, and all of them if there are fewer. */
    method FindPending(limit: nat) returns (pending: seq<Uuid>)
      ensures |pending| == |Elements(pending)| <= limit
      ensures forall id | id in pending :: Ripe(catalog, locations, now, id)
      ensures |pending| < limit ==> forall id | Ripe(catalog, locations, now, id) :: id in pending
    {
      pending := [];
      var open := Replaceable();
      while open != {} && |pending| < limit
        invariant |pending| == |Elements(pending)| <= limit
        invariant forall id | id in pending :: Ripe(catalog, locations, now, id) && id !in open
        invariant forall id | id in open :: Ripe(catalog, locations, now, id)
        invariant forall id | Ripe(catalog, locations, now, id) :: id in open || id in pending
        decreases |open|
      {
        var id :| id in open;
        ElementsSnoc(pending, id);
        pending := pending + [id];
        open := open - {id};
      }
    }

    /** FROM and WHERE: synced copies on a hot storage, with one on an enabled cold one, idle for some
        project of the file. */
    method Replaceable() returns (ids: set<Uuid>)
      ensures forall id :: id in ids <==> Ripe(catalog, locations, now, id)
    {
      var archived := set id | id in locations && locations[id].status == Synced
        && (exists s | s in catalog.storages :: s.id == locations[id].storageId && !s.isHot && s.enabled) ::
        locations[id].fileId;
      ids := set id | id in locations && locations[id].status == Synced
        && (exists s | s in catalog.storages :: s.id == locations[id].storageId && s.isHot)
        && locations[id].fileId in archived
        && exists p | p in catalog.coldDays ::
             && (locations[id].fileId, p) in catalog.references
             && (locations[id].lastAccessed.None?
                 || locations[id].lastAccessed.value + catalog.coldDays[p] * (24 * 60 * 60) < now);
      forall id | id in locations ensures SyncedCold(catalog, locations, locations[id].fileId) <==>
        locations[id].fileId in archived
      {
      }
      forall id, p | id in locations && p in catalog.coldDays
        ensures Idle(catalog, locations[id], p, now) <==>
          && (locations[id].fileId, p) in catalog.references
          && (locations[id].lastAccessed.None?
              || locations[id].lastAccessed.value + catalog.coldDays[p] * (24 * 60 * 60) < now)
      {
      }
    }

    method UpdateStatus(id: Uuid, status: Status) returns (found: bool)
      modifies this`locations
      ensures found <==> id in old(locations)
      ensures locations == Marked(old(locations), {id}, status)
    {
      found := id in locations;
      if found { locations := locations[id := locations[id].(status := status)]; }
    }

    method ProcessCompletedArchives() returns (archived: nat)
      modifies this`locations
      ensures exists ids: set<Uuid> ::
        && |ids| == archived <= LIMIT
        && (forall id | id in ids :: Ripe(catalog, old(locations), now, id))
        && (archived < LIMIT ==> forall id | Ripe(catalog, old(locations), now, id) :: id in ids)
        && locations == Marked(old(locations), ids, Archived)
      ensures archived <= 100 && locations.Keys == old(locations).Keys
      ensures forall id | id in locations :: locations[id] == old(locations)[id].(status := locations[id].status)
      ensures forall id | id in locations && locations[id] != old(locations)[id] ::
        Ripe(catalog, old(locations), now, id) && locations[id].status == Archived
      ensures DistinctStorages(catalog) ==>
        forall f | Readable(catalog, old(locations), f) :: Readable(catalog, locations, f)
    {
      var pending := FindPending(LIMIT);
      archived := 0;
      for i := 0 to |pending|
        invariant archived == i
        invariant locations == Marked(old(locations), Elements(pending[..i]), Archived)
      {
        assert pending[i] in pending;
        assert pending[..i + 1] == pending[..i] + [pending[i]];
        ElementsSnoc(pending[..i], pending[i]);
        var found := UpdateStatus(pending[i], Archived);
        assert found;
        archived := archived + 1;
      }
      assert pending[..|pending|] == pending;
      ghost var ids := Elements(pending);
      if DistinctStorages(catalog) {
        forall f | Readable(catalog, old(locations), f) ensures Readable(catalog, locations, f) {
          ArchivingKeepsReadable(catalog, old(locations), ids, f);
        }
      }
    }

    method FindCold(fileId: Uuid) returns (cold: Option<Uuid>)
      ensures cold.None? <==> forall id | id in locations :: !HasCold(catalog, locations[id], fileId)
      ensures cold.Some? ==> NewestCold(catalog, locations, fileId, cold.value)
    {
      var copies := set id | id in locations && locations[id].fileId == fileId
        && (locations[id].status == Synced || locations[id].status == Archived)
        && exists s | s in catalog.storages :: s.id == locations[id].storageId && !s.isHot && s.enabled;
      assert forall id | id in locations && HasCold(catalog, locations[id], fileId) :: id in copies;
      if copies == {} { return None; }
      var newest :| newest in copies;
      var left := copies - {newest};
      while left != {}
        invariant left <= copies && newest in copies
        invariant forall id | id in copies - left :: NoOlder(locations[newest].syncedAt, locations[id].syncedAt)
        decreases |left|
      {
        var id :| id in left;
        var a, b := locations[id].syncedAt, locations[newest].syncedAt;
        if a.Some? && (b.None? || a.value > b.value) { newest := id; }
        left := left - {id};
      }
      cold := Some(newest);
    }

    /** Needs a cold copy and an enabled hot storage; schedules the copy and marks the archived rows. */
    method RestoreFile(fileId: Uuid) returns (r: Result<Task, string>)
      modifies this`locations, this`tasks
      ensures r.Ok? <==>
        && (exists id | id in old(locations) :: HasCold(catalog, old(locations)[id], fileId))
        && (exists s | s in catalog.storages :: s.isHot && s.enabled)
      ensures r.Err? ==> locations == old(locations) && tasks == old(tasks)
      ensures r.Ok? ==>
        && tasks == old(tasks) + [r.value] && r.value.fileId == fileId && r.value.active
        && (r.value.projectId.None? <==> forall pair | pair in catalog.references :: pair.0 != fileId)
        && (r.value.projectId.Some? ==> (fileId, r.value.projectId.value) in catalog.references)
        && (exists id ::
          NewestCold(catalog, old(locations), fileId, id) && old(locations)[id].storageId == r.value.source)
        && (exists k :: OldestHot(catalog.storages, k) && catalog.storages[k].id == r.value.target)
        && locations == Marked(old(locations), ArchivedOf(old(locations), fileId), Restoring)
      ensures locations.Keys == old(locations).Keys
      ensures r.Ok? ==> forall id | id in locations ::
        var was := old(locations)[id];
        locations[id] == if was.fileId == fileId && was.status == Archived then was.(status := Restoring) else was
    {
      var cold := FindCold(fileId);
      if cold.None? { return Err("No cold storage location available for restore"); }
      var usable := (s: Storage) => s.isHot && s.enabled;
      var hot := First(catalog.storages, usable);
      FirstFound(catalog.storages, usable);
      match hot
      case None => return Err("No hot storage available for restore");
      case Some(s) =>
        ghost var k := FirstIndex(catalog.storages, usable);
        assert OldestHot(catalog.storages, k);
        var projects := set pair | pair in catalog.references && pair.0 == fileId :: pair.1;
        var project := None;
        assert forall pair | pair in catalog.references && pair.0 == fileId :: pair.1 in projects;
        if projects != {} {
          var p :| p in projects;
          project := Some(p);
        }
        var task := Task(fileId, locations[cold.value].storageId, s.id, project, true);
        tasks := tasks + [task];
        locations := map id | id in locations ::
          if locations[id].fileId == fileId && locations[id].status == Archived
          then locations[id].(status := Restoring) else locations[id];
        r := Ok(task);
    }
  }

  predicate HasCold(c: Catalog, l: Location, fileId: Uuid) {
    l.fileId == fileId && (l.status == Synced || l.status == Archived) && OnEnabledCold(c, l)
  }

  /** The copy to restore from. */
  predicate NewestCold(c: Catalog, locations: Locations, fileId: Uuid, id: Uuid) {
    && id in locations && HasCold(c, locations[id], fileId)
    && forall other | other in locations && HasCold(c, locations[other], fileId) ::
         NoOlder(locations[id].syncedAt, locations[other].syncedAt)
  }

  /** The storage to restore to. */
  predicate OldestHot(storages: seq<Storage>, k: int) {
    && 0 <= k < |storages| && storages[k].isHot && storages[k].enabled
    && forall i :: 0 <= i < k ==> !(storages[i].isHot && storages[i].enabled)
  }
}
