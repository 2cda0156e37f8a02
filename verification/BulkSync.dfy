/** Scheduling a copy to one storage for every file that is not there yet. */
module BulkSync {
  import opened Wrappers
  import opened Tables
  import opened Tiering

  predicate Has(l: Location, fileId: Uuid, status: Status) { l.fileId == fileId && l.status == status }

  predicate HasSynced(locations: Locations, fileId: Uuid) {
    exists id | id in locations :: Has(locations[id], fileId, Synced)
  }

  predicate OnTarget(locations: Locations, fileId: Uuid, target: Uuid) {
    exists id | id in locations ::
      locations[id].storageId == target && (Has(locations[id], fileId, Synced) || Has(locations[id], fileId, Pending))
  }

  predicate UnderWay(tasks: seq<Task>, fileId: Uuid, target: Uuid) {
    exists t | t in tasks :: t.fileId == fileId && t.target == target && t.active
  }

  /** The rows of the first query: a synced copy somewhere, even on a disabled storage. */
  predicate NeedsSync(locations: Locations, tasks: seq<Task>, fileId: Uuid, target: Uuid) {
    HasSynced(locations, fileId) && !OnTarget(locations, fileId, target) && !UnderWay(tasks, fileId, target)
  }

  /** A synced copy on an enabled storage, a hot one if there is any. */
  predicate IsSource(c: Catalog, locations: Locations, fileId: Uuid, source: Uuid) {
    exists id | id in locations ::
      && locations[id].storageId == source && Has(locations[id], fileId, Synced) && OnEnabled(c, locations[id])
      && (OnEnabledHot(c, locations[id]) || !HasHotSource(c, locations, fileId))
  }

  predicate HasHotSource(c: Catalog, locations: Locations, fileId: Uuid) {
    exists id | id in locations :: Has(locations[id], fileId, Synced) && OnEnabledHot(c, locations[id])
  }

  predicate GetsTask(c: Catalog, locations: Locations, tasks: seq<Task>, fileId: Uuid, target: Uuid) {
    NeedsSync(locations, tasks, fileId, target) && Readable(c, locations, fileId)
  }

  predicate TaskOk(c: Catalog, locations: Locations, target: Uuid, t: Task) {
    t.target == target && t.source != target && t.active && t.projectId.None?
      && IsSource(c, locations, t.fileId, t.source)
  }

  lemma {:induction false} TasksForSnoc(tasks: seq<Task>, t: Task, fileId: Uuid)
    ensures TasksFor(tasks + [t], fileId) == TasksFor(tasks, fileId) + if t.fileId == fileId then 1 else 0
  {
    if tasks == [] {
      assert tasks + [t] == [t] && [t][1..] == [];
    } else {
      assert (tasks + [t])[1..] == tasks[1..] + [t];
      TasksForSnoc(tasks[1..], t, fileId);
    }
  }

  lemma {:induction false} TasksForPositive(tasks: seq<Task>, fileId: Uuid)
    requires TasksFor(tasks, fileId) > 0
    ensures exists t | t in tasks :: t.fileId == fileId
  {
    if tasks[0].fileId == fileId {
      assert tasks[0] in tasks;
    } else {
      TasksForPositive(tasks[1..], fileId);
      var t :| t in tasks[1..] && t.fileId == fileId;
      assert t in tasks;
    }
  }

  function SyncedOn(locations: Locations, target: Uuid): set<Uuid> {
    set id | id in locations && locations[id].storageId == target && locations[id].status == Synced ::
      locations[id].fileId
  }

  datatype SyncAllResult = SyncAllResult(storageId: Uuid, created: nat, alreadySynced: nat)

  /** `added` has exactly one good task for each file that gets one, and nothing else. */
  ghost predicate OneEach(c: Catalog, locations: Locations, tasks: seq<Task>, target: Uuid, added: seq<Task>) {
    && (forall t | t in added :: TaskOk(c, locations, target, t))
    && (forall f :: TasksFor(added, f) == if GetsTask(c, locations, tasks, f, target) then 1 else 0)
  }

  /** Part of the way: the files in `done` have been looked at. */
  ghost predicate Part(c: Catalog, locations: Locations, target: Uuid, done: set<Uuid>, added: seq<Task>) {
    && (forall t | t in added :: TaskOk(c, locations, target, t))
    && (forall f :: TasksFor(added, f) == if f in done && Readable(c, locations, f) then 1 else 0)
  }

  lemma PartStep(c: Catalog, locations: Locations, target: Uuid, done: set<Uuid>, added: seq<Task>, t: Task)
    requires Part(c, locations, target, done, added) && t.fileId !in done && Readable(c, locations, t.fileId)
    requires TaskOk(c, locations, target, t)
    ensures Part(c, locations, target, done + {t.fileId}, added + [t])
  {
    forall f ensures TasksFor(added + [t], f) == if f in done + {t.fileId} && Readable(c, locations, f) then 1 else 0 {
      TasksForSnoc(added, t, f);
    }
  }

  lemma PartSkip(c: Catalog, locations: Locations, target: Uuid, done: set<Uuid>, added: seq<Task>, fileId: Uuid)
    requires Part(c, locations, target, done, added) && !Readable(c, locations, fileId)
    ensures Part(c, locations, target, done + {fileId}, added)
  {
  }

  lemma SourceIsNotTarget(c: Catalog, locations: Locations, tasks: seq<Task>, fileId: Uuid, source: Uuid,
                          target: Uuid)
    requires NeedsSync(locations, tasks, fileId, target) && IsSource(c, locations, fileId, source)
    ensures source != target
  {
  }

  class BulkService {
    const catalog: Catalog
    var locations: Locations
    var tasks: seq<Task>

    constructor (catalog: Catalog, locations: Locations, tasks: seq<Task>)
      ensures this.catalog == catalog && this.locations == locations && this.tasks == tasks
    {
      this.catalog, this.locations, this.tasks := catalog, locations, tasks;
    }

    method FindSource(fileId: Uuid) returns (source: Option<Uuid>)
      ensures source.Some? <==> Readable(catalog, locations, fileId)
      ensures source.Some? ==> IsSource(catalog, locations, fileId, source.value)
    {
      var copies := set id | id in locations && locations[id].fileId == fileId && locations[id].status == Synced
        && exists s | s in catalog.storages :: s.id == locations[id].storageId && s.enabled;
      var hot := set id | id in copies
        && exists s | s in catalog.storages :: s.id == locations[id].storageId && s.enabled && s.isHot;
      if copies == {} {
        assert forall id | id in locations && Has(locations[id], fileId, Synced) && OnEnabled(catalog, locations[id]) ::
          id in copies;
        return None;
      }
      if hot == {} {
        assert forall id | id in copies && OnEnabledHot(catalog, locations[id]) :: id in hot;
        assert forall id |
          id in locations && Has(locations[id], fileId, Synced) && OnEnabledHot(catalog, locations[id]) :: id in copies;
        var id :| id in copies;
        return Some(locations[id].storageId);
      }
      var id :| id in hot;
      source := Some(locations[id].storageId);
    }

    method ScheduleOne(f: Uuid, target: Uuid, ghost before: seq<Task>, ghost done: set<Uuid>, ghost added: seq<Task>)
      returns (created: bool, ghost added': seq<Task>)
      requires tasks == before + added && f !in done && NeedsSync(locations, before, f, target)
      requires Part(catalog, locations, target, done, added)
      modifies this`tasks
      ensures tasks == before + added' && |added'| == |added| + if created then 1 else 0
      ensures Part(catalog, locations, target, done + {f}, added')
    {
      var source := FindSource(f);
      if source.None? {
        PartSkip(catalog, locations, target, done, added, f);
        return false, added;
      }
      var task := Task(f, source.value, target, None, true);
      SourceIsNotTarget(catalog, locations, before, f, source.value, target);
      PartStep(catalog, locations, target, done, added, task);
      tasks := tasks + [task];
      return true, added + [task];
    }

    method Schedule(files: set<Uuid>, target: Uuid) returns (created: nat, ghost added: seq<Task>)
      requires forall f | f in files :: NeedsSync(locations, tasks, f, target)
      modifies this`tasks
      ensures tasks == old(tasks) + added && created == |added|
      ensures Part(catalog, locations, target, files, added)
    {
      created, added := 0, [];
      var open := files;
      while open != {}
        invariant tasks == old(tasks) + added && created == |added|
        invariant open <= files && Part(catalog, locations, target, files - open, added)
        decreases |open|
      {
        var f :| f in open;
        var one;
        one, added := ScheduleOne(f, target, old(tasks), files - open, added);
        assert files - (open - {f}) == (files - open) + {f};
        open := open - {f};
        if one { created := created + 1; }
      }
      assert files - {} == files;
    }

    method SyncAll(target: Uuid) returns (r: Result<SyncAllResult, string>)
      modifies this`tasks
      ensures r.Ok? <==> exists s | s in catalog.storages :: s.id == target && s.enabled
      ensures r.Err? ==> tasks == old(tasks)
      ensures r.Ok? ==> exists added ::
        && tasks == old(tasks) + added && r.value.created == |added|
        && OneEach(catalog, locations, old(tasks), target, added)
      ensures r.Ok? ==> r.value.storageId == target && r.value.alreadySynced == |SyncedOn(locations, target)|
    {
      if !exists s | s in catalog.storages :: s.id == target && s.enabled {
        return Err("Target storage is disabled");
      }
      var onTarget := set id | id in locations && locations[id].storageId == target
        && (locations[id].status == Synced || locations[id].status == Pending) :: locations[id].fileId;
      var underWay := set t | t in tasks && t.target == target && t.active :: t.fileId;
      var files := set id | id in locations && locations[id].status == Synced :: locations[id].fileId;
      files := files - onTarget - underWay;
      var created; ghost var added;
      created, added := Schedule(files, target);
      assert forall f :: f in files <==> NeedsSync(locations, old(tasks), f, target);
      var already := set id | id in locations && locations[id].storageId == target && locations[id].status == Synced ::
        locations[id].fileId;
      r := Ok(SyncAllResult(target, created, |already|));
    }

    /** Calling it again at once creates nothing. */
    method SyncAllTwice(target: Uuid) returns (first: Result<SyncAllResult, string>,
                        second: Result<SyncAllResult, string>)
      modifies this`tasks
      ensures first.Ok? <==> second.Ok?
      ensures second.Ok? ==> second.value.created == 0
    {
      first := SyncAll(target);
      ghost var between := tasks;
      second := SyncAll(target);
      if second.Ok? {
        ghost var before := old(tasks);
        ghost var one :| between == before + one && OneEach(catalog, locations, before, target, one);
        ghost var two :| tasks == between + two && OneEach(catalog, locations, between, target, two);
        NothingLeft(catalog, locations, before, target, one, two);
      }
    }
  }

  lemma AddedIsUnderWay(c: Catalog, locations: Locations, tasks: seq<Task>, target: Uuid, added: seq<Task>,
                        fileId: Uuid)
    requires (forall t | t in added :: TaskOk(c, locations, target, t)) && TasksFor(added, fileId) > 0
    ensures UnderWay(tasks + added, fileId, target)
  {
    TasksForPositive(added, fileId);
    var t :| t in added && t.fileId == fileId;
    assert t in tasks + added;
  }

  lemma NothingLeft(c: Catalog, locations: Locations, tasks: seq<Task>, target: Uuid, one: seq<Task>, two: seq<Task>)
    requires OneEach(c, locations, tasks, target, one) && OneEach(c, locations, tasks + one, target, two)
    ensures two == []
  {
    if two != [] {
      var f := two[0].fileId;
      assert TasksFor(two, f) > 0;
      assert !UnderWay(tasks + one, f, target);
      assert !UnderWay(tasks, f, target) by {
        assert forall t | t in tasks :: t in tasks + one;
      }
      AddedIsUnderWay(c, locations, tasks, target, one, f);
    }
  }
}
