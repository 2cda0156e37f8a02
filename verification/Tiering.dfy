/**
 Hot and cold storages: archiving marks a hot copy once a cold one is synced, restoring schedules the
 way back. Every scan works from a snapshot and several nodes scan at once.
 */
module Tiering {
  import opened Wrappers
  import opened Tables

  datatype Status = Pending | Synced | Archived | Restoring

  datatype Location = Location(
    fileId: Uuid, storageId: Uuid, status: Status, lastAccessed: Option<Time>, syncedAt: Option<Time>)

  type Locations = map<Uuid, Location>

  /** What tiering only reads: storages by creation, days until cold per project, file references. */
  datatype Catalog = Catalog(storages: seq<Storage>, coldDays: map<Uuid, nat>, references: set<(Uuid, Uuid)>)

  datatype Task = Task(fileId: Uuid, source: Uuid, target: Uuid, projectId: Option<Uuid>, active: bool)

  function TasksFor(tasks: seq<Task>, fileId: Uuid): nat {
    if tasks == [] then 0 else (if tasks[0].fileId == fileId then 1 else 0) + TasksFor(tasks[1..], fileId)
  }

  const DAY: nat := 86400

  predicate OnHot(c: Catalog, l: Location) { exists s | s in c.storages :: s.id == l.storageId && s.isHot }

  predicate OnEnabledHot(c: Catalog, l: Location) {
    exists s | s in c.storages :: s.id == l.storageId && s.isHot && s.enabled
  }

  predicate OnEnabledCold(c: Catalog, l: Location) {
    exists s | s in c.storages :: s.id == l.storageId && !s.isHot && s.enabled
  }

  predicate OnEnabled(c: Catalog, l: Location) { exists s | s in c.storages :: s.id == l.storageId && s.enabled }

  /** Storage ids are a primary key. */
  predicate DistinctStorages(c: Catalog) {
    forall s, t | s in c.storages && t in c.storages && s.id == t.id :: s == t
  }

  predicate SyncedCold(c: Catalog, locations: Locations, fileId: Uuid) {
    exists id | id in locations ::
      locations[id].fileId == fileId && locations[id].status == Synced && OnEnabledCold(c, locations[id])
  }

  predicate Readable(c: Catalog, locations: Locations, fileId: Uuid) {
    exists id | id in locations ::
      locations[id].fileId == fileId && locations[id].status == Synced && OnEnabled(c, locations[id])
  }

  predicate Idle(c: Catalog, l: Location, projectId: Uuid, now: Time) {
    && (l.fileId, projectId) in c.references && projectId in c.coldDays
    && (l.lastAccessed.Some? ==> l.lastAccessed.value + c.coldDays[projectId] * DAY < now)
  }

  /** A synced hot copy of a file with a synced cold one. */
  predicate Replaced(c: Catalog, locations: Locations, id: Uuid) {
    id in locations && locations[id].status == Synced && OnHot(c, locations[id])
      && SyncedCold(c, locations, locations[id].fileId)
  }

  predicate Ripe(c: Catalog, locations: Locations, now: Time, id: Uuid) {
    Replaced(c, locations, id) && exists p | p in c.coldDays :: Idle(c, locations[id], p, now)
  }

  function Marked(locations: Locations, ids: set<Uuid>, status: Status): Locations {
    map id | id in locations :: if id in ids then locations[id].(status := status) else locations[id]
  }

  function ArchivedOf(locations: Locations, fileId: Uuid): set<Uuid> {
    set id | id in locations && locations[id].fileId == fileId && locations[id].status == Archived
  }

  // ----- Any number of nodes -----

  /** Each node works through the location ids that its last scan selected. */
  datatype State = State(locations: Locations, scans: map<nat, seq<Uuid>>)

  datatype Step =
    | Scan(node: nat, selected: seq<Uuid>)   // idle long enough or not: any replaced copies
    | Archive(node: nat)                     // the next of its selection, without looking again
    | Restore(fileId: Uuid)
    | CopyDone(id: Uuid, fileId: Uuid, storageId: Uuid, at: Time)
    | CopyPlanned(id: Uuid, fileId: Uuid, storageId: Uuid)
    | Touch(id: Uuid, at: Time)

  predicate Enabled(c: Catalog, s: State, step: Step) {
    match step
    case Scan(_, selected) => forall id | id in selected :: Replaced(c, s.locations, id)
    case Archive(node) => node in s.scans && s.scans[node] != []
    case Restore(_) => true
    case CopyDone(id, fileId, storageId, _) =>
      id in s.locations ==> s.locations[id].fileId == fileId && s.locations[id].storageId == storageId
    case CopyPlanned(id, _, _) => id !in s.locations
    case Touch(id, _) => id in s.locations
  }

  function Apply(c: Catalog, s: State, step: Step): State
    requires Enabled(c, s, step)
  {
    match step
    case Scan(node, selected) => s.(scans := s.scans[node := selected])
    case Archive(node) =>
      State(Marked(s.locations, {s.scans[node][0]}, Archived), s.scans[node := s.scans[node][1..]])
    case Restore(fileId) => s.(locations := Marked(s.locations, ArchivedOf(s.locations, fileId), Restoring))
    case CopyDone(id, fileId, storageId, at) =>
      var accessed := if id in s.locations then s.locations[id].lastAccessed else None;
      s.(locations := s.locations[id := Location(fileId, storageId, Synced, accessed, Some(at))])
    case CopyPlanned(id, fileId, storageId) =>
      s.(locations := s.locations[id := Location(fileId, storageId, Pending, None, None)])
    case Touch(id, at) => s.(locations := s.locations[id := s.locations[id].(lastAccessed := Some(at))])
  }

  /** A selected location may have changed since the scan, but it is on a hot storage and its file
      still has its synced cold copy. */
  predicate SelectedOk(c: Catalog, locations: Locations, id: Uuid) {
    id in locations && OnHot(c, locations[id]) && SyncedCold(c, locations, locations[id].fileId)
  }

  predicate Inv(c: Catalog, s: State) {
    forall node | node in s.scans :: forall id | id in s.scans[node] :: SelectedOk(c, s.locations, id)
  }

  /** The locations only grow, keep their file and storage, and cold ones stay synced. */
  predicate Keeps(c: Catalog, before: Locations, after: Locations) {
    forall id | id in before ::
      && id in after && after[id].fileId == before[id].fileId && after[id].storageId == before[id].storageId
      && (before[id].status == Synced && !OnHot(c, before[id]) ==> after[id].status == Synced)
  }

  lemma KeepsSelectedOk(c: Catalog, before: Locations, after: Locations, id: Uuid)
    requires DistinctStorages(c) && Keeps(c, before, after) && SelectedOk(c, before, id)
    ensures SelectedOk(c, after, id)
  {
    var cold :| cold in before && before[cold].fileId == before[id].fileId && before[cold].status == Synced
      && OnEnabledCold(c, before[cold]);
    assert !OnHot(c, before[cold]);
    assert after[cold].status == Synced && OnEnabledCold(c, after[cold]);
  }

  /** Marking copies that have a synced cold one leaves every readable file readable. */
  lemma ArchivingKeepsReadable(c: Catalog, locations: Locations, ids: set<Uuid>, fileId: Uuid)
    requires DistinctStorages(c) && (forall id | id in ids :: SelectedOk(c, locations, id))
    requires Readable(c, locations, fileId)
    ensures Keeps(c, locations, Marked(locations, ids, Archived))
    ensures Readable(c, Marked(locations, ids, Archived), fileId)
  {
    var after := Marked(locations, ids, Archived);
    var id :| id in locations && locations[id].fileId == fileId && locations[id].status == Synced
      && OnEnabled(c, locations[id]);
    if id in ids {
      assert SyncedCold(c, locations, fileId);
      var cold :| cold in locations && locations[cold].fileId == fileId && locations[cold].status == Synced
        && OnEnabledCold(c, locations[cold]);
      assert cold !in ids;
      assert after[cold] == locations[cold] && OnEnabled(c, after[cold]);
    } else {
      assert after[id] == locations[id];
    }
  }

  lemma StepKeeps(c: Catalog, s: State, step: Step)
    requires DistinctStorages(c) && Inv(c, s) && Enabled(c, s, step)
    ensures Keeps(c, s.locations, Apply(c, s, step).locations)
  {
    if step.Archive? { assert SelectedOk(c, s.locations, s.scans[step.node][0]); }
  }

  lemma InvStep(c: Catalog, s: State, step: Step)
    requires DistinctStorages(c) && Inv(c, s) && Enabled(c, s, step)
    ensures Inv(c, Apply(c, s, step))
  {
    var s' := Apply(c, s, step);
    StepKeeps(c, s, step);
    forall node, id | node in s'.scans && id in s'.scans[node] ensures SelectedOk(c, s'.locations, id) {
      if step.Scan? && step.node == node {
        assert Replaced(c, s.locations, id);
      } else {
        assert id in s.scans[node];
      }
      KeepsSelectedOk(c, s.locations, s'.locations, id);
    }
  }

  lemma ReadableStep(c: Catalog, s: State, step: Step, fileId: Uuid)
    requires DistinctStorages(c) && Inv(c, s) && Enabled(c, s, step) && Readable(c, s.locations, fileId)
    ensures Readable(c, Apply(c, s, step).locations, fileId)
  {
    if step.Archive? {
      ArchivingKeepsReadable(c, s.locations, {s.scans[step.node][0]}, fileId);
    } else {
      var s' := Apply(c, s, step);
      var id :| id in s.locations && s.locations[id].fileId == fileId && s.locations[id].status == Synced
        && OnEnabled(c, s.locations[id]);
      assert s'.locations[id].storageId == s.locations[id].storageId && s'.locations[id].status == Synced;
      assert OnEnabled(c, s'.locations[id]);
    }
  }

  predicate IsRun(c: Catalog, states: seq<State>, steps: seq<Step>) {
    && |states| == |steps| + 1 && states[0].scans == map[]
    && forall i :: 0 <= i < |steps| ==>
      Enabled(c, states[i], steps[i]) && states[i + 1] == Apply(c, states[i], steps[i])
  }

  lemma {:induction false} InvHolds(c: Catalog, states: seq<State>, steps: seq<Step>, i: nat)
    requires DistinctStorages(c) && IsRun(c, states, steps) && i < |states|
    ensures Inv(c, states[i])
  {
    if i > 0 {
      InvHolds(c, states, steps, i - 1);
      InvStep(c, states[i - 1], steps[i - 1]);
    }
  }

  /** However scans, restores and copies interleave, a file with a synced copy on an enabled storage
      keeps one: archiving never takes the last. */
  lemma {:induction false} ReadableForever(c: Catalog, states: seq<State>, steps: seq<Step>, i: nat, j: nat,
                                           fileId: Uuid)
    requires DistinctStorages(c) && IsRun(c, states, steps) && i <= j < |states|
    requires Readable(c, states[i].locations, fileId)
    ensures Readable(c, states[j].locations, fileId)
    decreases j
  {
    if i < j {
      ReadableForever(c, states, steps, i, j - 1, fileId);
      InvHolds(c, states, steps, j - 1);
      ReadableStep(c, states[j - 1], steps[j - 1], fileId);
    }
  }
}
