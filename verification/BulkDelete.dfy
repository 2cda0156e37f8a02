/** Bulk delete against the tables: preview, execute, and the transaction that removes orphans. */
module BulkDelete {
  import opened Wrappers
  import opened Tables
  import opened SqlText
  import opened Sql
  import opened Fragments
  import opened Search
  import opened BulkDeleteClause
  import opened Lists
  import Sums

  datatype Preview = Preview(matchingReferences: nat, totalSize: nat)

  datatype BulkDeleteResult = BulkDeleteResult(deletedReferences: nat, orphanedFilesCleaned: nat, freedBytes: nat)

  function IdOf(): RefRow -> Uuid { (r: RefRow) => r.id }

  function Sizes(files: map<Uuid, FileRow>): map<Uuid, nat> { map id | id in files :: files[id].size }

  ghost function TotalSize(files: map<Uuid, FileRow>): nat { Sums.Total(Sizes(files)) }

  // ----- The server's part: which references a WHERE text selects -----

  /** The row for `fr`, if the FROM clause yields one. */
  function FromClause(r: RefRow, files: map<Uuid, FileRow>, locations: seq<LocationRow>, join: bool): Option<Row> {
    if !join then Some(Row(r, None, locations, None))
    else if r.fileId in files then Some(Row(r, Some(files[r.fileId]), locations, None))
    else None
  }

  predicate Accepts(read: Parse, args: seq<Cell>, row: Option<Row>) {
    row.Some? && read.Parsed? && Eval(read.expr, args, row.value).Yes?
  }

  predicate Chosen(project: Uuid, x: Filters, files: map<Uuid, FileRow>, locations: seq<LocationRow>, r: RefRow) {
    r.fileId in files && Selected(project, x, r, files[r.fileId].size, locations)
  }

  function IsChosen(project: Uuid, x: Filters, files: map<Uuid, FileRow>,
                    locations: seq<LocationRow>): RefRow -> bool {
    r => Chosen(project, x, files, locations, r)
  }

  function NotChosen(project: Uuid, x: Filters, files: map<Uuid, FileRow>,
                     locations: seq<LocationRow>): RefRow -> bool {
    r => !Chosen(project, x, files, locations, r)
  }

  function IsAccepted(read: Parse, args: seq<Cell>, files: map<Uuid, FileRow>, locations: seq<LocationRow>,
                      join: bool): RefRow -> bool {
    r => Accepts(read, args, FromClause(r, files, locations, join))
  }

  function IdOutside(ids: set<Uuid>): RefRow -> bool { (r: RefRow) => r.id !in ids }

  function FileOutside(ids: set<Uuid>): LocationRow -> bool { (l: LocationRow) => l.fileId !in ids }

  /** The rows the server selects are the chosen references. */
  lemma AcceptedAreChosen(project: Uuid, x: Filters, read: Parse, tail: seq<Token>, args: seq<Cell>,
                          files: map<Uuid, FileRow>, locations: seq<LocationRow>, join: bool, refs: seq<RefRow>)
    requires SelectsChosen(project, x, read, tail, args)
    requires NeedsFiles(x) ==> join
    requires forall r | r in refs :: r.fileId in files
    ensures Keep(refs, IsAccepted(read, args, files, locations, join))
      == Keep(refs, IsChosen(project, x, files, locations))
  {
    forall r | r in refs
      ensures IsAccepted(read, args, files, locations, join)(r) == IsChosen(project, x, files, locations)(r)
    {
      AcceptsChosen(project, x, read, tail, args, files, locations, join, r);
    }
    KeepSame(refs, IsAccepted(read, args, files, locations, join), IsChosen(project, x, files, locations));
  }

  /** With any tail that leaves the WHERE text alone. */
  lemma {:induction false} ServerSelects(project: Uuid, x: Filters, tail: string, args: seq<Cell>,
                                         files: map<Uuid, FileRow>, locations: seq<LocationRow>, join: bool,
                                         refs: seq<RefRow>)
    requires tail == "" || tail[0] == ')'
    requires args == [UuidCell(project)] + Conditions.AllCells(Given(x)) && (NeedsFiles(x) ==> join)
    requires forall r | r in refs :: r.fileId in files
    ensures Keep(refs, IsAccepted(ReadWhere(WhereText(x) + tail), args, files, locations, join))
      == Keep(refs, IsChosen(project, x, files, locations))
  {
    ClauseSelects(project, x, tail, args);
    AcceptedAreChosen(project, x, ReadWhere(WhereText(x) + tail), Lex(tail), args, files, locations, join, refs);
  }

  lemma AcceptsChosen(project: Uuid, x: Filters, read: Parse, tail: seq<Token>, args: seq<Cell>,
                      files: map<Uuid, FileRow>, locations: seq<LocationRow>, join: bool, r: RefRow)
    requires SelectsChosen(project, x, read, tail, args)
    requires NeedsFiles(x) ==> join
    requires r.fileId in files
    ensures Accepts(read, args, FromClause(r, files, locations, join)) == Chosen(project, x, files, locations, r)
  {
    var row := FromClause(r, files, locations, join).value;
    assert Eval(read.expr, args, row) == Truth(Selected(project, x, row.fr, SizeIn(row), row.locations));
  }

  function SumSizes(refs: seq<RefRow>, files: map<Uuid, FileRow>): nat {
    if refs == [] then 0
    else (if refs[0].fileId in files then files[refs[0].fileId].size else 0) + SumSizes(refs[1..], files)
  }

  /** The sizes, reference by reference. */
  ghost function SizesOf(refs: seq<RefRow>, files: map<Uuid, FileRow>): map<int, nat> {
    map i | 0 <= i < |refs| :: if refs[i].fileId in files then files[refs[i].fileId].size else 0
  }

  lemma {:induction false} SumSizesIs(refs: seq<RefRow>, files: map<Uuid, FileRow>)
    ensures SumSizes(refs, files) == Sums.Total(SizesOf(refs, files))
  {
    if refs != [] {
      var init, last := refs[..|refs| - 1], |refs| - 1;
      SumSizesIs(init, files);
      SumSizesSnoc(init, refs[last], files);
      assert refs == init + [refs[last]];
      assert SizesOf(refs, files) - {last} == SizesOf(init, files);
      Sums.TotalSplits(SizesOf(refs, files), last);
    }
  }

  lemma PreviewIs(project: Uuid, x: Filters, files: map<Uuid, FileRow>, locations: seq<LocationRow>,
                  refs: seq<RefRow>)
    ensures
      var chosen := Keep(refs, IsChosen(project, x, files, locations));
      && (forall c | c in chosen :: c.fileId in files)
      && SumSizes(chosen, files) == Sums.Total(map i | 0 <= i < |chosen| :: files[chosen[i].fileId].size)
  {
    var chosen := Keep(refs, IsChosen(project, x, files, locations));
    forall c | c in chosen ensures c.fileId in files {
      KeepMember(refs, IsChosen(project, x, files, locations), c);
    }
    SumSizesIs(chosen, files);
    SizesKnown(chosen, files);
  }

  lemma SizesKnown(refs: seq<RefRow>, files: map<Uuid, FileRow>)
    requires forall r | r in refs :: r.fileId in files
    ensures SizesOf(refs, files) == map i | 0 <= i < |refs| :: files[refs[i].fileId].size
  {
    forall i | 0 <= i < |refs| ensures SizesOf(refs, files)[i] == files[refs[i].fileId].size {
      assert refs[i] in refs;
    }
  }

  lemma {:induction false} SumSizesSnoc(refs: seq<RefRow>, r: RefRow, files: map<Uuid, FileRow>)
    ensures SumSizes(refs + [r], files)
      == SumSizes(refs, files) + (if r.fileId in files then files[r.fileId].size else 0)
  {
    if refs == [] {
      assert refs + [r] == [r] && [r][1..] == [];
    } else {
      assert (refs + [r])[1..] == refs[1..] + [r];
      SumSizesSnoc(refs[1..], r, files);
    }
  }

  function FileIds(refs: seq<RefRow>): seq<Uuid> { seq(|refs|, i requires 0 <= i < |refs| => refs[i].fileId) }

  function Ids(refs: seq<RefRow>): set<Uuid> { set r | r in refs :: r.id }

  lemma {:induction false} DeleteById(refs: seq<RefRow>, p: RefRow -> bool)
    requires DistinctBy(refs, IdOf())
    ensures forall r | r in refs :: r.id in Ids(Keep(refs, p)) <==> p(r)
  {
    KeepMembers(refs, p);
    forall r | r in refs ensures r.id in Ids(Keep(refs, p)) <==> p(r) {
      if r.id in Ids(Keep(refs, p)) {
        var r' :| r' in Keep(refs, p) && r'.id == r.id;
        assert r' == r;
      }
    }
  }

  /** Deleting the chosen references by their ids leaves the others. */
  lemma OthersStay(project: Uuid, x: Filters, files: map<Uuid, FileRow>, locations: seq<LocationRow>,
                   refs: seq<RefRow>)
    requires DistinctBy(refs, IdOf())
    ensures
      var chosen, others := IsChosen(project, x, files, locations), NotChosen(project, x, files, locations);
      var kept := Keep(refs, IdOutside(Ids(Keep(refs, chosen))));
      kept == Keep(refs, others) && DistinctBy(kept, IdOf()) && forall r | r in kept :: r in refs
  {
    var chosen, others := IsChosen(project, x, files, locations), NotChosen(project, x, files, locations);
    DeleteById(refs, chosen);
    KeepSame(refs, IdOutside(Ids(Keep(refs, chosen))), others);
    KeepDistinctBy(refs, IdOf(), others);
    KeepMembers(refs, others);
  }

  // ----- Orphans -----

  predicate Referenced(refs: seq<RefRow>, id: Uuid) { exists r | r in refs :: r.fileId == id }

  function Affected(refs: seq<RefRow>): set<Uuid> { set r | r in refs :: r.fileId }

  /** The affected files left without a reference in any project. */
  function Orphans(deleted: seq<RefRow>, remaining: seq<RefRow>): set<Uuid> {
    set id | id in Affected(deleted) && !Referenced(remaining, id)
  }

  /** The references chosen are gone, and the files that thereby lost their last one, with their
      locations; nothing else is. */
  predicate Cleared(project: Uuid, x: Filters, refs: seq<RefRow>, files: map<Uuid, FileRow>,
                    locations: seq<LocationRow>, refs': seq<RefRow>, files': map<Uuid, FileRow>,
                    locations': seq<LocationRow>) {
    && (forall ref | ref in refs' :: ref in refs)
    && (forall ref | ref in refs :: ref !in refs' <==> Chosen(project, x, files, locations, ref))
    && (forall id | id in files' :: id in files && files'[id] == files[id])
    && (forall id | id in files ::
          id !in files' <==>
            && (exists ref | ref in refs :: ref.fileId == id && ref !in refs')
            && (forall ref | ref in refs' :: ref.fileId != id))
    && (forall l | l in locations' :: l in locations)
    && (forall l | l in locations && l.fileId in files :: l !in locations' <==> l.fileId !in files')
  }

  lemma ClearedBy(project: Uuid, x: Filters, refs: seq<RefRow>, files: map<Uuid, FileRow>,
                  locations: seq<LocationRow>)
    ensures
      var chosen, others := IsChosen(project, x, files, locations), NotChosen(project, x, files, locations);
      var refs' := Keep(refs, others);
      var orphans := Orphans(Keep(refs, chosen), refs');
      Cleared(project, x, refs, files, locations, refs', files - orphans, Keep(locations, FileOutside(orphans)))
  {
    var chosen, others := IsChosen(project, x, files, locations), NotChosen(project, x, files, locations);
    KeepMembers(refs, chosen);
    KeepMembers(refs, others);
    var refs' := Keep(refs, others);
    var orphans := Orphans(Keep(refs, chosen), refs');
    KeepMembers(locations, FileOutside(orphans));
    forall id ensures id in orphans <==>
      (exists ref | ref in refs :: ref.fileId == id && ref !in refs') && (forall ref | ref in refs' :: ref.fileId != id)
    {
      OrphanIs(Keep(refs, chosen), refs', id);
    }
  }

  lemma OrphanIs(deleted: seq<RefRow>, remaining: seq<RefRow>, id: Uuid)
    ensures id in Orphans(deleted, remaining) <==>
      (exists ref | ref in deleted :: ref.fileId == id) && (forall ref | ref in remaining :: ref.fileId != id)
  {
  }

  class Database {
    var refs: seq<RefRow>
    var files: map<Uuid, FileRow>
    var locations: seq<LocationRow>

    /** Primary keys and foreign keys hold. */
    ghost predicate Valid()
      reads this
    {
      && DistinctBy(refs, IdOf())
      && (forall r | r in refs :: r.fileId in files)
      && (forall l | l in locations :: l.fileId in files)
    }

    method WhereAndArgs(project: Uuid, x: Filters) returns (r: Result<Clause, string>, where: string, args: seq<Cell>)
      ensures r.Ok? <==> Compiles(x)
      ensures r.Ok? ==> r.value.needsFilesJoin == NeedsFiles(x)
      ensures r.Ok? ==> where == WhereText(x) && args == [UuidCell(project)] + Conditions.AllCells(Given(x))
      ensures r.Ok? ==> r.value.nextIdx == |args| + 1
    {
      where, args := "", [];
      r := BuildBulkDeleteClause(x, 2);
      if r.Ok? {
        where := Comparison("fr.project_id", "=", 1) + " AND " + r.value.text;
        var bound := new PgArguments();
        BindBulkDeleteArgs(bound, project, x, r.value.params);
        args := bound.values;
      }
    }

    method PreviewBulkDelete(project: Uuid, x: Filters) returns (r: Result<Preview, string>)
      requires Valid()
      ensures r.Ok? <==> Compiles(x)
      ensures r.Ok? ==>
        var chosen := Keep(refs, IsChosen(project, x, files, locations));
        && r.value == Preview(|chosen|, SumSizes(chosen, files))
        && (forall c | c in chosen :: c.fileId in files)
        && r.value.totalSize == Sums.Total(map i | 0 <= i < |chosen| :: files[chosen[i].fileId].size)
    {
      var clause, where, args := WhereAndArgs(project, x);
      if clause.Err? { return Err(clause.error); }
      var read := ReadWhere(where);
      var rows := Keep(refs, IsAccepted(read, args, files, locations, true));
      assert where + "" == where;
      ServerSelects(project, x, "", args, files, locations, true, refs);
      PreviewIs(project, x, files, locations, refs);
      r := Ok(Preview(|rows|, SumSizes(rows, files)));
    }

    method ExecuteBulkDelete(project: Uuid, x: Filters) returns (r: Result<seq<Uuid>, string>)
      requires Valid()
      modifies this`refs
      ensures Valid()
      ensures r.Ok? <==> Compiles(x)
      ensures r.Err? ==> refs == old(refs)
      ensures r.Ok? ==> r.value == FileIds(Keep(old(refs), IsChosen(project, x, files, locations)))
      ensures r.Ok? ==> refs == Keep(old(refs), NotChosen(project, x, files, locations))
    {
      var clause, where, args := WhereAndArgs(project, x);
      if clause.Err? { return Err(clause.error); }
      var tail := ") RETURNING file_id";
      var read := ReadWhere(where + tail);
      var rows := Keep(refs, IsAccepted(read, args, files, locations, clause.value.needsFilesJoin));
      ServerSelects(project, x, tail, args, files, locations, clause.value.needsFilesJoin, refs);
      var ids := Ids(rows);
      OthersStay(project, x, files, locations, refs);
      refs := Keep(refs, IdOutside(ids));
      r := Ok(FileIds(rows));
    }

    /** Those of `ids` that are files without references; one row a file. */
    method FindOrphanedFromIds(ids: seq<Uuid>) returns (orphans: seq<Uuid>)
      ensures forall id :: id in orphans <==> id in ids && id in files && !Referenced(refs, id)
      ensures Distinct(orphans)
    {
      orphans := [];
      for i := 0 to |ids|
        invariant forall id :: id in orphans <==> id in ids[..i] && id in files && !Referenced(refs, id)
        invariant Distinct(orphans)
      {
        if ids[i] in files && ids[i] !in orphans {
          var referenced := IsReferenced(ids[i]);
          if !referenced { orphans := orphans + [ids[i]]; }
        }
      }
    }

    method IsReferenced(id: Uuid) returns (b: bool)
      ensures b == Referenced(refs, id)
    {
      b := exists r | r in refs :: r.fileId == id;
    }

    method DeleteFile(id: Uuid)
      requires id in files
      modifies this`files, this`locations
      ensures files == old(files) - {id}
      ensures locations == Keep(old(locations), FileOutside({id}))
      ensures TotalSize(files) + old(files[id].size) == old(TotalSize(files))
    {
      Sums.TotalSplits(Sizes(files), id);
      assert Sizes(files - {id}) == Sizes(files) - {id};
      locations := Keep(locations, FileOutside({id}));
      files := files - {id};
    }

    method BulkDelete(project: Uuid, x: Filters) returns (r: Result<BulkDeleteResult, string>)
      requires Valid()
      modifies this
      ensures Valid()
      ensures r.Ok? <==> Compiles(x)
      ensures r.Err? ==> refs == old(refs) && files == old(files) && locations == old(locations)
      ensures r.Ok? ==> refs == Keep(old(refs), NotChosen(project, x, old(files), old(locations)))
      ensures r.Ok? ==>
        var deleted := Keep(old(refs), IsChosen(project, x, old(files), old(locations)));
        var orphans := Orphans(deleted, refs);
        && files == old(files) - orphans
        && locations == Keep(old(locations), FileOutside(orphans))
        && r.value.deletedReferences == |deleted|
        && r.value.orphanedFilesCleaned == |orphans|
      ensures r.Ok? ==> old(TotalSize(files)) == TotalSize(files) + r.value.freedBytes
      ensures r.Ok? ==> Cleared(project, x, old(refs), old(files), old(locations), refs, files, locations)
    {
      ghost var deleted := Keep(refs, IsChosen(project, x, files, locations));
      KeepMembers(refs, IsChosen(project, x, files, locations));
      var executed := ExecuteBulkDelete(project, x);
      if executed.Err? { return Err(executed.error); }
      var fileIds := executed.value;
      if |fileIds| == 0 {
        assert deleted == [] && Orphans(deleted, refs) == {};
        KeepEverything(locations, FileOutside({}));
        ClearedBy(project, x, old(refs), files, locations);
        return Ok(BulkDeleteResult(0, 0, 0));
      }
      var orphaned, freedBytes := CleanUp(fileIds, deleted);
      ClearedBy(project, x, old(refs), old(files), old(locations));
      r := Ok(BulkDeleteResult(|fileIds|, orphaned, freedBytes));
    }

    /** Finds and removes those of the files that are left without a reference. */
    method CleanUp(fileIds: seq<Uuid>, ghost deleted: seq<RefRow>) returns (orphaned: nat, freedBytes: nat)
      requires Valid() && fileIds == FileIds(deleted) && forall ref | ref in deleted :: ref.fileId in files
      modifies this`files, this`locations
      ensures Valid() && files == old(files) - Orphans(deleted, refs)
      ensures locations == Keep(old(locations), FileOutside(Orphans(deleted, refs)))
      ensures orphaned == |Orphans(deleted, refs)| && old(TotalSize(files)) == TotalSize(files) + freedBytes
    {
      var uniqueFileIds := Deduplicate(fileIds);
      var orphanedIds := FindOrphanedFromIds(uniqueFileIds);
      ghost var orphans := Orphans(deleted, refs);
      OrphansAreIds(deleted, refs, fileIds, uniqueFileIds, orphanedIds, files);
      freedBytes := RemoveFiles(orphanedIds);
      KeepMembers(old(locations), FileOutside(orphans));
      DistinctCount(orphanedIds);
      orphaned := |orphanedIds|;
    }

    /** A preview, then the deletion it announces: the same references, counted once, and no more bytes
        freed than announced. */
    method PreviewThenDelete(project: Uuid, x: Filters) returns (p: Result<Preview, string>,
                             r: Result<BulkDeleteResult, string>)
      requires Valid()
      modifies this
      ensures Valid() && p.Ok? == r.Ok? == Compiles(x)
      ensures r.Ok? ==> p.value.matchingReferences == r.value.deletedReferences
      ensures r.Ok? ==> r.value.freedBytes <= p.value.totalSize
    {
      p := PreviewBulkDelete(project, x);
      r := BulkDelete(project, x);
      if r.Ok? {
        ghost var deleted := Keep(old(refs), IsChosen(project, x, old(files), old(locations)));
        FreedAtMost(old(files), deleted, Orphans(deleted, refs));
      }
    }

    /** One more file after those in `done`. */
    method RemoveNext(id: Uuid, ghost done: set<Uuid>, ghost before: map<Uuid, FileRow>,
                      ghost places: seq<LocationRow>, ghost freed: nat)
      returns (size: nat)
      requires id in files && id !in done && files == before - done && locations == Keep(places, FileOutside(done))
      requires TotalSize(before) == TotalSize(files) + freed
      modifies this`files, this`locations
      ensures files == before - (done + {id}) && locations == Keep(places, FileOutside(done + {id}))
      ensures TotalSize(before) == TotalSize(files) + (freed + size)
    {
      size := files[id].size;
      DeleteFile(id);
      KeepKeep(places, FileOutside(done), FileOutside({id}), FileOutside(done + {id}));
      MinusMore(before, done, id);
    }

    /** Deletes the files and their locations one by one, adding up their sizes. */
    method RemoveFiles(ids: seq<Uuid>) returns (freedBytes: nat)
      requires Distinct(ids) && forall id | id in ids :: id in files
      modifies this`files, this`locations
      ensures files == old(files) - Elements(ids)
      ensures locations == Keep(old(locations), FileOutside(Elements(ids)))
      ensures old(TotalSize(files)) == TotalSize(files) + freedBytes
    {
      freedBytes := 0;
      KeepEverything(locations, FileOutside({}));
      assert Elements(ids[..0]) == {};
      for i := 0 to |ids|
        invariant files == old(files) - Elements(ids[..i])
        invariant locations == Keep(old(locations), FileOutside(Elements(ids[..i])))
        invariant old(TotalSize(files)) == TotalSize(files) + freedBytes
      {
        NextElement(ids, i);
        var size := RemoveNext(ids[i], Elements(ids[..i]), old(files), old(locations), freedBytes);
        freedBytes := freedBytes + size;
      }
      assert ids[..|ids|] == ids;
    }
  }

  lemma MinusMore(files: map<Uuid, FileRow>, done: set<Uuid>, id: Uuid)
    ensures files - done - {id} == files - (done + {id})
  {
  }

  lemma NextElement(ids: seq<Uuid>, i: nat)
    requires Distinct(ids) && i < |ids|
    ensures ids[i] !in Elements(ids[..i]) && Elements(ids[..i + 1]) == Elements(ids[..i]) + {ids[i]}
  {
    assert ids[..i + 1] == ids[..i] + [ids[i]];
  }

  /** Removing files that some references name frees no more bytes than these count. */
  lemma {:induction false} FreedAtMost(files: map<Uuid, FileRow>, deleted: seq<RefRow>, orphans: set<Uuid>)
    requires orphans <= Affected(deleted)
    ensures TotalSize(files) <= TotalSize(files - orphans) + SumSizes(deleted, files)
  {
    if deleted == [] {
      assert files - orphans == files;
    } else {
      var f, others := deleted[0].fileId, orphans - {deleted[0].fileId};
      assert forall ref | ref in deleted :: ref == deleted[0] || ref in deleted[1..];
      FreedAtMost(files, deleted[1..], others);
      WithoutOne(files - others, f);
      assert files - others - {f} == files - (others + {f});
      if f in orphans {
        assert others + {f} == orphans;
      } else {
        assert others == orphans;
      }
    }
  }

  lemma WithoutOne(files: map<Uuid, FileRow>, f: Uuid)
    ensures TotalSize(files) == TotalSize(files - {f}) + if f in files then files[f].size else 0
  {
    if f in files {
      Sums.TotalSplits(Sizes(files), f);
      assert Sizes(files - {f}) == Sizes(files) - {f};
    } else {
      assert files - {f} == files;
    }
  }

  method Deduplicate(ids: seq<Uuid>) returns (unique: seq<Uuid>)
    ensures Elements(unique) == Elements(ids) && Distinct(unique)
  {
    unique := [];
    for i := 0 to |ids|
      invariant Elements(unique) == Elements(ids[..i]) && Distinct(unique)
    {
      assert Elements(ids[..i + 1]) == Elements(ids[..i]) + {ids[i]};
      if ids[i] !in unique { unique := unique + [ids[i]]; }
    }
    assert ids[..|ids|] == ids;
  }

  lemma OrphansAreIds(deleted: seq<RefRow>, remaining: seq<RefRow>, fileIds: seq<Uuid>, unique: seq<Uuid>,
                      orphanedIds: seq<Uuid>, files: map<Uuid, FileRow>)
    requires fileIds == FileIds(deleted) && Elements(unique) == Elements(fileIds)
    requires forall r | r in deleted :: r.fileId in files
    requires forall id :: id in orphanedIds <==> id in unique && id in files && !Referenced(remaining, id)
    ensures Elements(orphanedIds) == Orphans(deleted, remaining)
    ensures forall id | id in orphanedIds :: id in files
  {
    assert forall id :: id in unique <==> id in Elements(unique);
    forall id ensures id in fileIds <==> id in Affected(deleted) {
      if id in Affected(deleted) {
        var r :| r in deleted && r.fileId == id;
        var i :| 0 <= i < |deleted| && deleted[i] == r;
        assert fileIds[i] == id;
      }
    }
    assert forall id :: id in fileIds <==> id in Elements(fileIds);
  }
}
