/**
 Uploading with deduplication: hash, find or create the file row, store new content on the primary
 storage, link the file to the project and schedule copies to the other storages.
 */
module FileService {
  import opened Wrappers
  import opened Json
  import opened Tables
  import opened Dedup
  import opened Lists

  newtype byte = x: int | 0 <= x < 256

  // ----- Hashing -----

  /** A streaming digest: its state takes one byte at a time and ends in a hex string. */
  datatype Hasher = Hasher(init: nat, absorb: (nat, byte) -> nat, hex: nat -> string)

  function Absorb(h: Hasher, state: nat, data: seq<byte>): nat
    decreases |data|
  {
    if data == [] then state else Absorb(h, h.absorb(state, data[0]), data[1..])
  }

  function Digest(h: Hasher, data: seq<byte>): string { h.hex(Absorb(h, h.init, data)) }

  lemma {:induction false} AbsorbAppend(h: Hasher, state: nat, a: seq<byte>, b: seq<byte>)
    ensures Absorb(h, state, a + b) == Absorb(h, Absorb(h, state, a), b)
    decreases |a|
  {
    if a == [] {
      assert a + b == b;
    } else {
      assert (a + b)[1..] == a[1..] + b;
      AbsorbAppend(h, h.absorb(state, a[0]), a[1..], b);
    }
  }

  const BLOCK: nat := 8 * 1024 * 1024

  /** Reads the file in blocks of whatever sizes the reads return. */
  method HashFile(h: Hasher, file: seq<byte>) returns (hash: string, total: nat)
    ensures hash == Digest(h, file) && total == |file|
  {
    var state := h.init;
    total := 0;
    while total < |file|
      invariant total <= |file| && state == Absorb(h, h.init, file[..total])
    {
      var n: nat :| 1 <= n <= BLOCK && total + n <= |file|;
      var block := file[total..total + n];
      AbsorbAppend(h, h.init, file[..total], block);
      assert file[..total + n] == file[..total] + block;
      state := Absorb(h, state, block);
      total := total + n;
    }
    assert file[..total] == file;
    hash := h.hex(state);
  }

  /** "ab/cd/abcd...": directories from the first four digits. */
  function ContentPath(hash: string): string {
    if |hash| < 4 then hash else hash[..2] + "/" + hash[2..4] + "/" + hash
  }

  lemma ContentPathInjective(a: string, b: string)
    requires ContentPath(a) == ContentPath(b)
    ensures a == b
  {
    if |a| >= 4 && |b| >= 4 {
      assert ContentPath(a)[6..] == a && ContentPath(b)[6..] == b;
    }
  }

  /** Two contents share a directory exactly if their digests begin with the same four digits. */
  lemma SameDirectory(a: string, b: string)
    requires |a| >= 4 && |b| >= 4
    ensures |ContentPath(a)| == |a| + 6 && ContentPath(a)[6..] == a && ContentPath(a)[2] == ContentPath(a)[5] == '/'
    ensures ContentPath(a)[..6] == ContentPath(b)[..6] <==> a[..4] == b[..4]
  {
    assert ContentPath(a)[..2] == a[..2] && ContentPath(a)[3..5] == a[2..4];
    assert ContentPath(b)[..2] == b[..2] && ContentPath(b)[3..5] == b[2..4];
    assert a[..4] == a[..2] + a[2..4] && b[..4] == b[..2] + b[2..4];
    assert ContentPath(a)[..6] == a[..2] + "/" + a[2..4] + "/";
    assert ContentPath(b)[..6] == b[..2] + "/" + b[2..4] + "/";
    if ContentPath(a)[..6] == ContentPath(b)[..6] {
      assert a[..2] == ContentPath(a)[..6][..2] && b[..2] == ContentPath(b)[..6][..2];
      assert a[2..4] == ContentPath(a)[..6][3..5] && b[2..4] == ContentPath(b)[..6][3..5];
    }
  }

  // ----- Storages -----

  predicate DistinctStorages(storages: seq<Storage>) {
    forall i, j :: 0 <= i < j < |storages| ==> storages[i].id != storages[j].id
  }

  function Primary(storages: seq<Storage>, registry: set<Uuid>): Option<Storage> {
    var hot := First(storages, (s: Storage) => s.isHot && s.id in registry);
    if hot.Some? then hot else First(storages, (s: Storage) => s.id in registry)
  }

  /** First hot storage with a registered backend, else first registered one. */
  method FindPrimaryStorage(storages: seq<Storage>, registry: set<Uuid>) returns (r: Result<Storage, string>)
    ensures r.Ok? <==> Primary(storages, registry).Some?
    ensures r.Ok? ==> Some(r.value) == Primary(storages, registry)
    ensures r.Ok? ==> r.value in storages && r.value.id in registry
    ensures r.Ok? ==> (r.value.isHot <==> exists s :: s in storages && s.isHot && s.id in registry)
    ensures r.Err? <==> forall s | s in storages :: s.id !in registry
  {
    var hot := (s: Storage) => s.isHot && s.id in registry;
    var any := (s: Storage) => s.id in registry;
    for i := 0 to |storages|
      invariant forall k :: 0 <= k < i ==> !hot(storages[k])
    {
      if hot(storages[i]) {
        FirstIsFirst(storages, hot, i);
        return Ok(storages[i]);
      }
    }
    FirstFound(storages, hot);
    for i := 0 to |storages|
      invariant forall k :: 0 <= k < i ==> !any(storages[k])
    {
      if any(storages[i]) {
        FirstIsFirst(storages, any, i);
        return Ok(storages[i]);
      }
    }
    FirstFound(storages, any);
    r := Err("No storage backends are registered and available");
  }

  // ----- The tables and the stored bytes -----

  datatype SyncRow = SyncRow(fileId: Uuid, source: Uuid, target: Uuid, projectId: Uuid)

  /** locations come newest first, as the queries order them; blobs are the backends' contents. */
  datatype World = World(
    files: Files, nextFileId: Uuid, nextId: Uuid, refs: seq<RefRow>, locations: seq<LocationRow>, tasks: seq<SyncRow>,
    blobs: map<(Uuid, string), seq<byte>>, now: Time)

  /** What an upload is called with, and how the outside behaves: the project's enabled storages and
      the registered backends; whether the content can be read, its file row found or inserted, the
      bytes stored, the location and the reference inserted and the existing locations read; and the
      storages for which inserting a copy fails. */
  datatype Request = Request(
    projectId: Uuid, originalName: string, contentType: string, metadata: Json,
    storages: seq<Storage>, registry: set<Uuid>,
    readable: bool, rowWorks: bool, backendWorks: bool, locationWorks: bool, referenceWorks: bool,
    locationsRead: bool, failingCopies: set<Uuid>)

  datatype UploadResult = UploadResult(file: FileRow, reference: RefRow, isDuplicate: bool, syncTasksCreated: nat)

  function OfFile(fileId: Uuid): LocationRow -> bool { (l: LocationRow) => l.fileId == fileId }

  function LocationsOf(w: World, fileId: Uuid): seq<LocationRow> { Keep(w.locations, OfFile(fileId)) }

  function StorageIds(storages: seq<Storage>): set<Uuid> { set s | s in storages :: s.id }

  function Holding(locations: seq<LocationRow>): set<Uuid> { set l | l in locations :: l.storageId }

  // ----- Where copies come from -----

  function FirstSynced(locations: seq<LocationRow>, ids: set<Uuid>): Option<Uuid> {
    if locations == [] then None
    else if locations[0].synced && locations[0].storageId in ids then Some(locations[0].storageId)
    else FirstSynced(locations[1..], ids)
  }

  /** A project storage with a synced copy, else any registered one, else the primary storage. */
  function Source(locations: seq<LocationRow>, storages: seq<Storage>, registry: set<Uuid>, primary: Uuid): Uuid {
    var best := FirstSynced(locations, registry * StorageIds(storages));
    var fallback := FirstSynced(locations, registry);
    if best.Some? then best.value else if fallback.Some? then fallback.value else primary
  }

  predicate HasSynced(locations: seq<LocationRow>, ids: set<Uuid>, id: Uuid) {
    id in ids && exists l :: l in locations && l.synced && l.storageId == id
  }

  lemma {:induction false} FirstSyncedFound(locations: seq<LocationRow>, ids: set<Uuid>)
    ensures var r := FirstSynced(locations, ids);
      if r.Some? then HasSynced(locations, ids, r.value) else forall id :: !HasSynced(locations, ids, id)
  {
    if locations != [] && !(locations[0].synced && locations[0].storageId in ids) {
      FirstSyncedFound(locations[1..], ids);
      forall id ensures HasSynced(locations, ids, id) <==> HasSynced(locations[1..], ids, id) {
        assert locations == [locations[0]] + locations[1..];
      }
    }
  }

  /** The loop with its two candidates: stops at the first project storage, remembers the first other. */
  method FindSource(locations: seq<LocationRow>, storages: seq<Storage>, registry: set<Uuid>, primary: Uuid)
    returns (source: Uuid)
    ensures source == Source(locations, storages, registry, primary)
  {
    var projectIds := StorageIds(storages);
    var best, fallback := None, None;
    var i := 0;
    while i < |locations| && best.None?
      invariant i <= |locations|
      invariant best.None? ==>
        FirstSynced(locations, registry * projectIds) == FirstSynced(locations[i..], registry * projectIds)
      invariant best.Some? ==> best == FirstSynced(locations, registry * projectIds)
      invariant best.None? ==>
        FirstSynced(locations, registry) == (if fallback.Some? then fallback else FirstSynced(locations[i..], registry))
    {
      var l := locations[i];
      assert locations[i..] == [l] + locations[i + 1..];
      if l.synced && l.storageId in registry {
        if l.storageId in projectIds {
          best := Some(l.storageId);
        } else if fallback.None? {
          fallback := Some(l.storageId);
        }
      }
      i := i + 1;
    }
    source := if best.Some? then best.value else if fallback.Some? then fallback.value else primary;
  }

  // ----- Fan-out -----

  predicate WantsCopy(s: Storage, source: Uuid, holding: set<Uuid>, registry: set<Uuid>) {
    s.id != source && s.id !in holding && s.id in registry
  }

  function NewTasks(storages: seq<Storage>, fileId: Uuid, projectId: Uuid, source: Uuid, holding: set<Uuid>,
                    registry: set<Uuid>): seq<SyncRow> {
    if storages == [] then []
    else
      var first := storages[0];
      (if WantsCopy(first, source, holding, registry) then [SyncRow(fileId, source, first.id, projectId)] else [])
      + NewTasks(storages[1..], fileId, projectId, source, holding, registry)
  }

  function TasksTo(tasks: seq<SyncRow>, target: Uuid): nat {
    if tasks == [] then 0 else (if tasks[0].target == target then 1 else 0) + TasksTo(tasks[1..], target)
  }

  lemma {:induction false} TasksToAppend(a: seq<SyncRow>, b: seq<SyncRow>, target: Uuid)
    ensures TasksTo(a + b, target) == TasksTo(a, target) + TasksTo(b, target)
  {
    if a == [] {
      assert a + b == b;
    } else {
      assert (a + b)[1..] == a[1..] + b;
      TasksToAppend(a[1..], b, target);
    }
  }

  /** One task for each storage that wants a copy, none for any other target. */
  lemma {:induction false} OneTaskEach(storages: seq<Storage>, fileId: Uuid, projectId: Uuid, source: Uuid,
                                       holding: set<Uuid>, registry: set<Uuid>, target: Uuid)
    requires DistinctStorages(storages)
    ensures TasksTo(NewTasks(storages, fileId, projectId, source, holding, registry), target)
      == if exists s :: s in storages && s.id == target && WantsCopy(s, source, holding, registry) then 1 else 0
    ensures forall t | t in NewTasks(storages, fileId, projectId, source, holding, registry) ::
      t.fileId == fileId && t.source == source && t.projectId == projectId && t.target != source
  {
    if storages != [] {
      var first := storages[0];
      OneTaskEach(storages[1..], fileId, projectId, source, holding, registry, target);
      assert storages == [first] + storages[1..];
      var row := SyncRow(fileId, source, first.id, projectId);
      var head := if WantsCopy(first, source, holding, registry) then [row] else [];
      TasksToAppend(head, NewTasks(storages[1..], fileId, projectId, source, holding, registry), target);
      assert first.id == target ==> forall s | s in storages[1..] :: s.id != target;
    }
  }

  // ----- Recording a reference and scheduling copies -----

  /** The file's locations; none if reading them fails. */
  function Seen(w: World, req: Request, fileId: Uuid): seq<LocationRow> {
    if req.locationsRead then LocationsOf(w, fileId) else []
  }

  function SourceFor(w: World, req: Request, fileId: Uuid, isNew: bool, primary: Uuid): Uuid {
    if isNew then primary else Source(Seen(w, req, fileId), req.storages, req.registry, primary)
  }

  function TasksFor(w: World, req: Request, fileId: Uuid, isNew: bool, primary: Uuid): seq<SyncRow> {
    NewTasks(req.storages, fileId, req.projectId, SourceFor(w, req, fileId, isNew, primary),
             Holding(Seen(w, req, fileId)), req.registry - req.failingCopies)
  }

  function ReferenceRow(w: World, req: Request, fileId: Uuid): RefRow {
    RefRow(w.nextId, fileId, req.projectId, req.originalName, req.metadata, w.now)
  }

  function Recorded(w: World, req: Request, fileId: Uuid, isNew: bool, primary: Uuid): World {
    w.(refs := w.refs + [ReferenceRow(w, req, fileId)], nextId := w.nextId + 1,
       tasks := w.tasks + TasksFor(w, req, fileId, isNew, primary))
  }

  /** Every registered project storage ends up with a location row, or as the source, or as the
      target of exactly one new task, except where inserting that fails; and a duplicate is copied from
      a registered synced location, a project storage if possible, whenever there is one. */
  lemma EveryStorageIsServed(w: World, req: Request, fileId: Uuid, isNew: bool, primary: Uuid, s: Storage)
    requires DistinctStorages(req.storages) && s in req.storages && s.id in req.registry
    ensures var source := SourceFor(w, req, fileId, isNew, primary);
      var seen, tasks := Seen(w, req, fileId), TasksFor(w, req, fileId, isNew, primary);
      && TasksTo(tasks, s.id) == (if s.id == source || s.id in Holding(seen) || s.id in req.failingCopies then 0 else 1)
      && (forall t | t in tasks :: t.fileId == fileId && t.source == source != t.target)
      && (!isNew && (exists id :: HasSynced(seen, req.registry, id)) ==> HasSynced(seen, req.registry, source))
      && (!isNew && (exists id :: HasSynced(seen, req.registry * StorageIds(req.storages), id)) ==>
            source in StorageIds(req.storages))
  {
    var source := SourceFor(w, req, fileId, isNew, primary);
    var seen := Seen(w, req, fileId);
    var own := req.registry * StorageIds(req.storages);
    OneTaskEach(req.storages, fileId, req.projectId, source, Holding(seen), req.registry - req.failingCopies, s.id);
    assert forall r | r in req.storages && r.id == s.id :: r == s;
    FirstSyncedFound(seen, own);
    FirstSyncedFound(seen, req.registry);
    if FirstSynced(seen, own).Some? {
      assert HasSynced(seen, req.registry, FirstSynced(seen, own).value);
    }
  }

  // ----- Uploading -----

  function WithFile(w: World, id: Uuid, input: CreateFile): World {
    w.(files := w.files[id := NewRow(id, input)], nextFileId := w.nextFileId + 1)
  }

  function HasLocation(w: World, fileId: Uuid, storageId: Uuid): bool {
    exists l :: l in w.locations && l.fileId == fileId && l.storageId == storageId
  }

  /** The primary location; a row that is already there is kept. */
  function WithPrimaryLocation(w: World, fileId: Uuid, storageId: Uuid, path: string): World {
    if HasLocation(w, fileId, storageId) then w
    else
      var row := LocationRow(w.nextId, fileId, storageId, path, true, None);
      w.(locations := [row] + w.locations, nextId := w.nextId + 1)
  }

  /** The bytes on the primary storage, and their location. */
  function Stored(w: World, req: Request, primary: Uuid, fileId: Uuid, path: string, data: seq<byte>): World {
    var w1 := w.(blobs := w.blobs[(primary, path) := data]);
    if req.locationWorks then WithPrimaryLocation(w1, fileId, primary, path) else w1
  }

  /** There is content, and a file row for it. */
  predicate Begins(req: Request) { req.readable && req.rowWorks }

  /** New content reaches a primary storage, and its location is recorded. */
  predicate Storable(req: Request) {
    Primary(req.storages, req.registry).Some? && req.backendWorks && req.locationWorks
  }

  /** What remains to do once there is a row and a primary storage, and whether it works. */
  function Linked(w: World, req: Request, hash: string, data: seq<byte>, fileId: Uuid, isNew: bool, primary: Uuid)
    : (World, bool)
  {
    if isNew && !req.backendWorks then (w, false)
    else
      var stored := if isNew then Stored(w, req, primary, fileId, ContentPath(hash), data) else w;
      if (isNew && !req.locationWorks) || !req.referenceWorks then (stored, false)
      else (Recorded(stored, req, fileId, isNew, primary), true)
  }

  /** With the row of a known hash, or a new one. */
  function Found(w: World, input: CreateFile, existing: Option<Uuid>): World {
    if existing.None? then WithFile(w, w.nextFileId, input) else w
  }

  /** Both upload paths, as a function of the digest and the bytes; `existing` is the row of a known hash. */
  function Uploaded(w: World, req: Request, hash: string, data: seq<byte>, existing: Option<Uuid>)
    : (World, Option<Uuid>)
  {
    if !Begins(req) then (w, None)
    else
      var isNew := existing.None?;
      var found := Found(w, CreateFile(hash, |data|, req.contentType), existing);
      var fileId := if isNew then w.nextFileId else existing.value;
      var primary := Primary(req.storages, req.registry);
      if primary.None? then (found, None)
      else
        var (end, ok) := Linked(found, req, hash, data, fileId, isNew, primary.value.id);
        (end, if ok then Some(fileId) else None)
  }

  /** What an upload of `data` leaves behind, and whether it succeeds. */
  ghost predicate UploadsTo(w: World, req: Request, h: Hasher, data: seq<byte>, w': World,
                            r: Result<UploadResult, string>) {
    exists existing ::
      AnswersFind(w.files, Digest(h, data), existing) && Ends(w, req, Digest(h, data), data, existing, w', r)
  }

  predicate Ends(w: World, req: Request, hash: string, data: seq<byte>, existing: Option<Uuid>, w': World,
                 r: Result<UploadResult, string>) {
    var (end, fileId) := Uploaded(w, req, hash, data, existing);
    && w' == end
    && (r.Ok? <==> fileId.Some?)
    && (r.Ok? ==>
          && fileId.value in end.files && r.value.file == end.files[fileId.value]
          && r.value.isDuplicate == existing.Some?
          && end.refs == w.refs + [r.value.reference]
          && |end.tasks| == |w.tasks| + r.value.syncTasksCreated)
  }

  /** Without a usable storage a new row is all that an upload leaves. */
  lemma RowOnly(w: World, req: Request, h: Hasher, data: seq<byte>, existing: Option<Uuid>,
                r: Result<UploadResult, string>)
    requires Begins(req) && Primary(req.storages, req.registry).None? && r.Err?
    requires AnswersFind(w.files, Digest(h, data), existing)
    ensures UploadsTo(w, req, h, data, Found(w, CreateFile(Digest(h, data), |data|, req.contentType), existing), r)
  {
    var found := Found(w, CreateFile(Digest(h, data), |data|, req.contentType), existing);
    assert Ends(w, req, Digest(h, data), data, existing, found, r);
  }

  lemma RowAndRest(w: World, req: Request, h: Hasher, data: seq<byte>, existing: Option<Uuid>, w': World,
                   r: Result<UploadResult, string>)
    requires Begins(req) && AnswersFind(w.files, Digest(h, data), existing)
    requires Primary(req.storages, req.registry).Some?
    requires
      var hash, isNew := Digest(h, data), existing.None?;
      var found := Found(w, CreateFile(hash, |data|, req.contentType), existing);
      var fileId := if isNew then w.nextFileId else existing.value;
      var primary := Primary(req.storages, req.registry).value.id;
      && (w', r.Ok?) == Linked(found, req, hash, data, fileId, isNew, primary)
      && (r.Ok? ==> fileId in found.files && r.value.file == found.files[fileId] && r.value.isDuplicate == !isNew)
    requires r.Ok? ==> w'.refs == w.refs + [r.value.reference] && |w'.tasks| == |w.tasks| + r.value.syncTasksCreated
    ensures UploadsTo(w, req, h, data, w', r)
  {
    assert Ends(w, req, Digest(h, data), data, existing, w', r);
  }

  lemma NothingDone(w: World, req: Request, h: Hasher, data: seq<byte>, r: Result<UploadResult, string>)
    requires !Begins(req) && r.Err?
    ensures UploadsTo(w, req, h, data, w, r)
  {
    var hash := Digest(h, data);
    if HasHash(w.files, hash) {
      var id :| id in w.files && w.files[id].hash == hash;
      assert AnswersFind(w.files, hash, Some(id)) && Ends(w, req, hash, data, Some(id), w, r);
    } else {
      assert AnswersFind(w.files, hash, None) && Ends(w, req, hash, data, None, w, r);
    }
  }

  /** The outcome is determined: two uploads of the same bytes in the same situation, on whichever
      path, leave the same tables and backends and return the same. */
  lemma SameOutcome(w: World, req: Request, h: Hasher, data: seq<byte>, w1: World,
                    r1: Result<UploadResult, string>, w2: World, r2: Result<UploadResult, string>)
    requires UniqueHashes(w.files)
    requires UploadsTo(w, req, h, data, w1, r1) && UploadsTo(w, req, h, data, w2, r2)
    ensures w1 == w2 && r1.Ok? == r2.Ok? && (r1.Ok? ==> r1.value == r2.value)
  {
    var hash := Digest(h, data);
    var one :| AnswersFind(w.files, hash, one) && Ends(w, req, hash, data, one, w1, r1);
    var two :| AnswersFind(w.files, hash, two) && Ends(w, req, hash, data, two, w2, r2);
    assert one.Some? ==> HasHash(w.files, hash);
    assert two.Some? ==> HasHash(w.files, hash);
    assert one == two;
    if r1.Ok? {
      assert w1.refs[|w.refs|] == r1.value.reference && w2.refs[|w.refs|] == r2.value.reference;
    }
  }

  // ----- What an upload reports and leaves, field by field -----

  predicate LocatedAt(w: World, fileId: Uuid, storageId: Uuid) {
    exists l | l in w.locations :: l.fileId == fileId && l.storageId == storageId
  }

  /** The first hot storage with a backend, or the first with one if none is hot. */
  ghost predicate IsPrimary(storages: seq<Storage>, registry: set<Uuid>, id: Uuid) {
    var hot, any := (s: Storage) => s.isHot && s.id in registry, (s: Storage) => s.id in registry;
    exists s: Storage :: s.id == id && IsFirst(storages, if exists x :: x in storages && hot(x) then hot else any, s)
  }

  /** A synced copy of the file on one of the storages. */
  function SyncedOn(fileId: Uuid, ids: set<Uuid>): LocationRow -> bool {
    (l: LocationRow) => l.fileId == fileId && l.synced && l.storageId in ids
  }

  /** Where copies are made from: the newest synced location on a project storage with a backend, else
      on any storage with one, else the primary storage. */
  ghost predicate IsSource(w: World, req: Request, fileId: Uuid, primary: Uuid, source: Uuid) {
    var own, any := SyncedOn(fileId, req.registry * StorageIds(req.storages)), SyncedOn(fileId, req.registry);
    if exists l :: l in w.locations && own(l) then exists l :: IsFirst(w.locations, own, l) && source == l.storageId
    else if exists l :: l in w.locations && any(l)
      then exists l :: IsFirst(w.locations, any, l) && source == l.storageId
    else source == primary
  }

  predicate NeedsCopy(w: World, req: Request, fileId: Uuid, source: Uuid, s: Storage) {
    && s.id in req.registry && s.id !in req.failingCopies && s.id != source
    && (req.locationsRead ==> !LocatedAt(w, fileId, s.id))
  }

  /** One row, with the file and the project, for each storage that needs a copy; no others. */
  predicate CopiesMade(w: World, req: Request, fileId: Uuid, source: Uuid, added: seq<SyncRow>) {
    && (forall t | t in added :: t.fileId == fileId && t.projectId == req.projectId && t.source == source)
    && (forall t | t in added ::
          exists s | s in req.storages :: s.id == t.target && NeedsCopy(w, req, fileId, source, s))
    && (forall s | s in req.storages && NeedsCopy(w, req, fileId, source, s) ::
          exists t | t in added :: t.target == s.id)
    && (DistinctStorages(req.storages) ==> forall i, j :: 0 <= i < j < |added| ==> added[i].target != added[j].target)
  }

  /** The project has a reference to a file with this hash, under the name and with the metadata given;
      the file is the known one or a new row of this size and type. */
  predicate LinksContent(w: World, req: Request, hash: string, size: nat, w': World, u: UploadResult) {
    && u.file.hash == hash && u.file.id in w'.files && w'.files[u.file.id] == u.file
    && u.reference.fileId == u.file.id && u.reference.projectId == req.projectId
    && u.reference.originalName == req.originalName && u.reference.metadata == req.metadata
    && u.reference.createdAt == w.now && (forall ref | ref in w.refs :: ref.id != u.reference.id)
    && w'.refs == w.refs + [u.reference]
    && if u.isDuplicate then w'.files == w.files
       else && u.file.id !in w.files && w'.files == w.files[u.file.id := u.file]
            && u.file.size == size && u.file.contentType == req.contentType
  }

  /** Copies are scheduled for the project's storages, from the primary storage if the file is new. */
  ghost predicate SchedulesCopies(w: World, req: Request, w': World, u: UploadResult) {
    exists primary, source, added ::
      && IsPrimary(req.storages, req.registry, primary)
      && (if u.isDuplicate && req.locationsRead then IsSource(w', req, u.file.id, primary, source)
        else source == primary)
      && CopiesMade(w', req, u.file.id, source, added)
      && w'.tasks == w.tasks + added && |added| == u.syncTasksCreated
  }

  ghost predicate Outcome(w: World, req: Request, hash: string, size: nat, w': World,
                          r: Result<UploadResult, string>) {
    match r
    case Ok(u) => LinksContent(w, req, hash, size, w', u) && SchedulesCopies(w, req, w', u)
    case Err(_) => w'.refs == w.refs && w'.tasks == w.tasks
  }

  lemma PrimaryIs(storages: seq<Storage>, registry: set<Uuid>)
    requires Primary(storages, registry).Some?
    ensures IsPrimary(storages, registry, Primary(storages, registry).value.id)
  {
    var hot, any := (s: Storage) => s.isHot && s.id in registry, (s: Storage) => s.id in registry;
    FirstIs(storages, hot);
    FirstIs(storages, any);
  }

  lemma {:induction false} FirstSyncedIs(locations: seq<LocationRow>, fileId: Uuid, ids: set<Uuid>)
    ensures
      var first := First(locations, SyncedOn(fileId, ids));
      FirstSynced(Keep(locations, OfFile(fileId)), ids) == if first.Some? then Some(first.value.storageId) else None
  {
    if locations != [] {
      FirstSyncedIs(locations[1..], fileId, ids);
      var kept := Keep(locations[1..], OfFile(fileId));
      if locations[0].fileId == fileId {
        assert ([locations[0]] + kept)[1..] == kept;
      } else {
        assert [] + kept == kept;
      }
    }
  }

  lemma SourceIs(w: World, req: Request, fileId: Uuid, primary: Uuid)
    ensures IsSource(w, req, fileId, primary, Source(LocationsOf(w, fileId), req.storages, req.registry, primary))
  {
    var own, any := req.registry * StorageIds(req.storages), req.registry;
    FirstSyncedIs(w.locations, fileId, own);
    FirstSyncedIs(w.locations, fileId, any);
    FirstIs(w.locations, SyncedOn(fileId, own));
    FirstIs(w.locations, SyncedOn(fileId, any));
  }

  lemma {:induction false} NewTasksAre(storages: seq<Storage>, fileId: Uuid, projectId: Uuid, source: Uuid,
                                       holding: set<Uuid>, working: set<Uuid>)
    ensures
      var tasks := NewTasks(storages, fileId, projectId, source, holding, working);
      && (forall t | t in tasks :: t.fileId == fileId && t.projectId == projectId && t.source == source)
      && (forall t | t in tasks ::
            exists s | s in storages :: s.id == t.target && WantsCopy(s, source, holding, working))
      && (forall s | s in storages && WantsCopy(s, source, holding, working) ::
            exists t | t in tasks :: t.target == s.id)
      && (DistinctStorages(storages) ==> forall i, j :: 0 <= i < j < |tasks| ==> tasks[i].target != tasks[j].target)
  {
    if storages != [] {
      NewTasksAre(storages[1..], fileId, projectId, source, holding, working);
      assert storages == [storages[0]] + storages[1..];
      var rest := NewTasks(storages[1..], fileId, projectId, source, holding, working);
      if WantsCopy(storages[0], source, holding, working) {
        assert ([SyncRow(fileId, source, storages[0].id, projectId)] + rest)[1..] == rest;
      }
    }
  }

  lemma CopiesAre(w: World, req: Request, fileId: Uuid, isNew: bool, primary: Uuid)
    ensures CopiesMade(w, req, fileId, SourceFor(w, req, fileId, isNew, primary),
      TasksFor(w, req, fileId, isNew, primary))
  {
    var source := SourceFor(w, req, fileId, isNew, primary);
    var holding, working := Holding(Seen(w, req, fileId)), req.registry - req.failingCopies;
    NewTasksAre(req.storages, fileId, req.projectId, source, holding, working);
    KeepMembers(w.locations, OfFile(fileId));
    forall s: Storage ensures NeedsCopy(w, req, fileId, source, s) <==> WantsCopy(s, source, holding, working) {
      HoldingIs(w, req, fileId, s.id);
    }
  }

  lemma HoldingIs(w: World, req: Request, fileId: Uuid, id: Uuid)
    ensures id in Holding(Seen(w, req, fileId)) <==> req.locationsRead && LocatedAt(w, fileId, id)
  {
    KeepMembers(w.locations, OfFile(fileId));
  }

  /** Keys are given out in ascending order. */
  predicate Sound(w: World) {
    && IdsMatch(w.files) && (forall id | id in w.files :: id < w.nextFileId)
    && (forall ref | ref in w.refs :: ref.id < w.nextId)
  }

  /** What is recorded for a file, wherever its row comes from. */
  lemma RecordedFor(w: World, req: Request, fileId: Uuid, isNew: bool, primary: Uuid)
    requires forall ref | ref in w.refs :: ref.id < w.nextId
    ensures
      var w', reference := Recorded(w, req, fileId, isNew, primary), ReferenceRow(w, req, fileId);
      && w'.refs == w.refs + [reference] && (forall ref | ref in w.refs :: ref.id != reference.id)
      && reference.fileId == fileId && reference.projectId == req.projectId && reference.createdAt == w.now
      && reference.originalName == req.originalName && reference.metadata == req.metadata
      && w'.files == w.files && w'.locations == w.locations
      && exists source, added ::
           && (if !isNew && req.locationsRead then IsSource(w', req, fileId, primary, source) else source == primary)
           && CopiesMade(w', req, fileId, source, added) && w'.tasks == w.tasks + added
  {
    var w' := Recorded(w, req, fileId, isNew, primary);
    var source, added := SourceFor(w, req, fileId, isNew, primary), TasksFor(w, req, fileId, isNew, primary);
    SourceIs(w, req, fileId, primary);
    SourceIs(w', req, fileId, primary);
    CopiesAre(w, req, fileId, isNew, primary);
    CopiesAre(w', req, fileId, isNew, primary);
  }

  /** Known content: the file as it is, and what is recorded for it. */
  lemma KnownOutcome(w: World, req: Request, hash: string, data: seq<byte>, id: Uuid, w': World,
                     r: Result<UploadResult, string>)
    requires Sound(w) && id in w.files && w.files[id].hash == hash && Ends(w, req, hash, data, Some(id), w', r)
    ensures Outcome(w, req, hash, |data|, w', r)
  {
    var primary := Primary(req.storages, req.registry);
    if Begins(req) && primary.Some? {
      PrimaryIs(req.storages, req.registry);
      RecordedFor(w, req, id, false, primary.value.id);
      if r.Ok? { LastOf(w.refs, r.value.reference, ReferenceRow(w, req, id)); }
    }
  }

  lemma NewOutcome(w: World, req: Request, hash: string, data: seq<byte>, w': World, r: Result<UploadResult, string>)
    requires Sound(w) && Ends(w, req, hash, data, None, w', r)
    ensures Outcome(w, req, hash, |data|, w', r)
  {
    var primary := Primary(req.storages, req.registry);
    if Begins(req) && primary.Some? {
      var found := WithFile(w, w.nextFileId, CreateFile(hash, |data|, req.contentType));
      var stored := Stored(found, req, primary.value.id, w.nextFileId, ContentPath(hash), data);
      PrimaryIs(req.storages, req.registry);
      StoredKeeps(found, req, primary.value.id, w.nextFileId, ContentPath(hash), data);
      RecordedFor(stored, req, w.nextFileId, true, primary.value.id);
      if r.Ok? { LastOf(w.refs, r.value.reference, ReferenceRow(stored, req, w.nextFileId)); }
    }
  }

  lemma StoredKeeps(w: World, req: Request, primary: Uuid, fileId: Uuid, path: string, data: seq<byte>)
    ensures
      var stored := Stored(w, req, primary, fileId, path, data);
      stored.files == w.files && stored.refs == w.refs && stored.tasks == w.tasks && stored.now == w.now
      && stored.nextId >= w.nextId
  {
  }

  lemma LastOf(refs: seq<RefRow>, a: RefRow, b: RefRow)
    ensures refs + [a] == refs + [b] ==> a == b
  {
    assert (refs + [a])[|refs|] == a && (refs + [b])[|refs|] == b;
  }

  /** What every upload reports and leaves in fields, on either path. */
  lemma OutcomeIs(w: World, req: Request, h: Hasher, data: seq<byte>, w': World, r: Result<UploadResult, string>)
    requires Sound(w) && UploadsTo(w, req, h, data, w', r)
    ensures Outcome(w, req, Digest(h, data), |data|, w', r)
  {
    var hash := Digest(h, data);
    var existing :| AnswersFind(w.files, hash, existing) && Ends(w, req, hash, data, existing, w', r);
    match existing
    case Some(id) => KnownOutcome(w, req, hash, data, id, w', r);
    case None => NewOutcome(w, req, hash, data, w', r);
  }

  class Service {
    const table: FileTable
    var nextId: Uuid
    var refs: seq<RefRow>
    var locations: seq<LocationRow>
    var tasks: seq<SyncRow>
    var blobs: map<(Uuid, string), seq<byte>>
    var now: Time

    constructor (now: Time)
      ensures Valid() && fresh(table)
      ensures State() == World(map[], table.nextId, 0, [], [], [], map[], now)
    {
      table := new FileTable();
      nextId, refs, locations, tasks, blobs, this.now := 0, [], [], [], map[], now;
    }

    ghost function State(): World
      reads this, table
    {
      World(table.files, table.nextId, nextId, refs, locations, tasks, blobs, now)
    }

    ghost predicate Valid()
      reads this, table
    {
      && table.Valid() && Sound(State())
      && (forall l | l in locations :: l.fileId in table.files)
      && (forall ref | ref in refs :: ref.fileId in table.files)
    }

    method CreatePrimaryLocation(fileId: Uuid, storageId: Uuid, path: string, works: bool) returns (ok: bool)
      requires Valid() && fileId in table.files
      modifies this`locations, this`nextId
      ensures ok == works && Valid()
      ensures State() == if works then WithPrimaryLocation(old(State()), fileId, storageId, path) else old(State())
    {
      if !works { return false; }
      var taken := exists l | l in locations :: l.fileId == fileId && l.storageId == storageId;
      if !taken {
        locations := [LocationRow(nextId, fileId, storageId, path, true, None)] + locations;
        nextId := nextId + 1;
      }
      ok := true;
    }

    /** A failing insert is logged and not counted. */
    method ScheduleCopies(req: Request, fileId: Uuid, source: Uuid, holding: set<Uuid>) returns (created: nat)
      modifies this`tasks
      ensures var added := NewTasks(req.storages, fileId, req.projectId, source, holding,
        req.registry - req.failingCopies);
        tasks == old(tasks) + added && created == |added|
    {
      created := 0;
      ghost var working := req.registry - req.failingCopies;
      ghost var all := NewTasks(req.storages, fileId, req.projectId, source, holding, working);
      assert req.storages[0..] == req.storages;
      for i := 0 to |req.storages|
        invariant tasks + NewTasks(req.storages[i..], fileId, req.projectId, source, holding, working)
          == old(tasks) + all
        invariant |tasks| == |old(tasks)| + created
      {
        var s := req.storages[i];
        ghost var rest := NewTasks(req.storages[i + 1..], fileId, req.projectId, source, holding, working);
        assert req.storages[i..][1..] == req.storages[i + 1..] && [] + rest == rest;
        if s.id == source { continue; }
        if s.id in holding { continue; }
        if s.id !in req.registry { continue; }
        if s.id !in req.failingCopies {
          assert tasks + ([SyncRow(fileId, source, s.id, req.projectId)] + rest)
              == tasks + [SyncRow(fileId, source, s.id, req.projectId)] + rest;
          tasks := tasks + [SyncRow(fileId, source, s.id, req.projectId)];
          created := created + 1;
        }
      }
    }

    method RecordReferencesAndSync(req: Request, file: FileRow, isNew: bool, primary: Uuid)
      returns (r: Result<UploadResult, string>)
      requires Valid() && file.id in table.files
      modifies this`refs, this`tasks, this`nextId
      ensures Valid() && (r.Ok? <==> req.referenceWorks)
      ensures State() == if r.Ok? then Recorded(old(State()), req, file.id, isNew, primary) else old(State())
      ensures r.Ok? ==> r.value == UploadResult(file, ReferenceRow(old(State()), req, file.id), !isNew,
                                                |TasksFor(old(State()), req, file.id, isNew, primary)|)
    {
      if !req.referenceWorks { return Err("Inserting the file reference failed"); }
      var reference := RefRow(nextId, file.id, req.projectId, req.originalName, req.metadata, now);
      refs, nextId := refs + [reference], nextId + 1;
      var existingLocations := if req.locationsRead then Keep(locations, OfFile(file.id)) else [];
      var source := primary;
      if !isNew {
        source := FindSource(existingLocations, req.storages, req.registry, primary);
      }
      var created := ScheduleCopies(req, file.id, source, Holding(existingLocations));
      r := Ok(UploadResult(file, reference, !isNew, created));
    }

    method StoreAndLink(req: Request, hash: string, data: seq<byte>, file: FileRow, isNew: bool, primary: Uuid)
      returns (r: Result<UploadResult, string>)
      requires Valid() && file.id in table.files
      modifies this`refs, this`locations, this`tasks, this`blobs, this`nextId
      ensures Valid() && (State(), r.Ok?) == Linked(old(State()), req, hash, data, file.id, isNew, primary)
      ensures r.Ok? ==> r.value.file == file && r.value.isDuplicate == !isNew
      ensures r.Ok? ==> State().refs == old(refs) + [r.value.reference]
      ensures r.Ok? ==> |State().tasks| == |old(tasks)| + r.value.syncTasksCreated
    {
      if isNew {
        if !req.backendWorks { return Err("Backend rejected the upload"); }
        blobs := blobs[(primary, ContentPath(hash)) := data];
        var ok := CreatePrimaryLocation(file.id, primary, ContentPath(hash), req.locationWorks);
        if !ok { return Err("Inserting the file location failed"); }
      }
      r := RecordReferencesAndSync(req, file, isNew, primary);
    }

    method FindOrCreate(input: CreateFile) returns (file: FileRow, isNew: bool, ghost existing: Option<Uuid>)
      requires Valid()
      modifies table
      ensures Valid() && State() == Found(old(State()), input, existing) && isNew == existing.None?
      ensures AnswersFind(old(State()).files, input.hash, existing)
      ensures file.id == (if isNew then old(State()).nextFileId else existing.value)
      ensures file.id in table.files && table.files[file.id] == file
    {
      var found := table.CreateOrFind(input);
      file, isNew := found.value.0, found.value.1;
      existing := if isNew then None else Some(file.id);
    }

    /** Steps 2 to 5, the same on both paths. */
    method FindOrCreateAndLink(req: Request, hash: string, data: seq<byte>, ghost h: Hasher)
      returns (r: Result<UploadResult, string>)
      requires Valid() && hash == Digest(h, data) && req.readable
      modifies this, table
      ensures Valid()
      ensures UploadsTo(old(State()), req, h, data, State(), r)
    {
      if !req.rowWorks {
        NothingDone(State(), req, h, data, Err("Database error"));
        return Err("Database error");
      }
      var file, isNew, existing := FindOrCreate(CreateFile(hash, |data|, req.contentType));
      if req.storages == [] {
        r := Err("No enabled storages available for this project");
        RowOnly(old(State()), req, h, data, existing, r);
        return;
      }
      var primary := FindPrimaryStorage(req.storages, req.registry);
      match primary
      case Err(message) =>
        r := Err(message);
        RowOnly(old(State()), req, h, data, existing, r);
      case Ok(storage) =>
        r := StoreAndLink(req, hash, data, file, isNew, storage.id);
        RowAndRest(old(State()), req, h, data, existing, State(), r);
    }

    /** The bytes are at hand, so there is nothing to fail to read. */
    method UploadFile(req: Request, h: Hasher, data: seq<byte>) returns (r: Result<UploadResult, string>)
      requires Valid()
      modifies this, table
      ensures Valid()
      ensures UploadsTo(old(State()), req.(readable := true), h, data, State(), r)
      ensures Outcome(old(State()), req.(readable := true), Digest(h, data), |data|, State(), r)
    {
      var hash := Digest(h, data);
      r := FindOrCreateAndLink(req.(readable := true), hash, data, h);
      OutcomeIs(old(State()), req.(readable := true), h, data, State(), r);
    }

    /** Hashes and stores the assembled file by streaming it. */
    method FinalizeUpload(req: Request, h: Hasher, file: seq<byte>) returns (r: Result<UploadResult, string>)
      requires Valid()
      modifies this, table
      ensures Valid()
      ensures UploadsTo(old(State()), req, h, file, State(), r)
      ensures Outcome(old(State()), req, Digest(h, file), |file|, State(), r)
    {
      if !req.readable {
        NothingDone(State(), req, h, file, Err("Failed to read temp file"));
        return Err("Failed to read temp file");
      }
      var hash, size := HashFile(h, file);
      assert size == |file|;
      r := FindOrCreateAndLink(req, hash, file, h);
      OutcomeIs(old(State()), req, h, file, State(), r);
    }
  }
}
