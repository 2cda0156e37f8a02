/**
 Whether every file row has its bytes behind it: what uploads do to that, one at a time and in any
 number.
 */
module StoredContent {
  import opened Wrappers
  import opened Tables
  import opened Dedup
  import opened FileService

  /** Every location names a file and the path of its hash, every reference a file. */
  ghost predicate Consistent(w: World) {
    && UniqueHashes(w.files) && IdsMatch(w.files)
    && (forall id | id in w.files :: id < w.nextFileId)
    && (forall l | l in w.locations :: l.fileId in w.files && l.path == ContentPath(w.files[l.fileId].hash))
    && (forall ref | ref in w.refs :: ref.fileId in w.files && ref.id < w.nextId)
  }

  /** A reference links the project to a file with this digest. */
  predicate IsLinked(w: World, projectId: Uuid, hash: string) {
    exists ref | ref in w.refs ::
      ref.projectId == projectId && ref.fileId in w.files && w.files[ref.fileId].hash == hash
  }

  predicate Holds(w: World, h: Hasher, l: LocationRow, id: Uuid)
    requires id in w.files
  {
    && l.fileId == id && l.synced && (l.storageId, l.path) in w.blobs
    && Digest(h, w.blobs[(l.storageId, l.path)]) == w.files[id].hash
  }

  /** Some synced location of the file has bytes with the file's digest behind it. */
  predicate Intact(w: World, h: Hasher, id: Uuid) {
    id in w.files && exists l | l in w.locations :: Holds(w, h, l, id)
  }

  predicate AllIntact(w: World, h: Hasher) { forall id | id in w.files :: Intact(w, h, id) }

  // ----- One upload -----

  /** Whether an upload succeeds, from what it is given and finds. */
  lemma SucceedsIff(w: World, req: Request, h: Hasher, data: seq<byte>, w': World, r: Result<UploadResult, string>)
    requires UploadsTo(w, req, h, data, w', r)
    ensures r.Ok? <==>
      && Begins(req) && Primary(req.storages, req.registry).Some? && req.referenceWorks
      && (HasHash(w.files, Digest(h, data)) || Storable(req))
    ensures r.Ok? ==> (r.value.isDuplicate <==> HasHash(w.files, Digest(h, data)))
  {
    var hash := Digest(h, data);
    var existing :| AnswersFind(w.files, hash, existing) && Ends(w, req, hash, data, existing, w', r);
    assert existing.Some? <==> HasHash(w.files, hash);
  }

  function NewFile(w: World, req: Request, h: Hasher, data: seq<byte>): FileRow {
    NewRow(w.nextFileId, CreateFile(Digest(h, data), |data|, req.contentType))
  }

  function NewLocation(w: World, h: Hasher, data: seq<byte>, primary: Uuid): LocationRow {
    LocationRow(w.nextId, w.nextFileId, primary, ContentPath(Digest(h, data)), true, None)
  }

  /** Known content, or no content at all: files, locations and bytes stay as they are. */
  lemma KnownContent(w: World, req: Request, h: Hasher, data: seq<byte>, w': World, r: Result<UploadResult, string>)
    requires UploadsTo(w, req, h, data, w', r) && (HasHash(w.files, Digest(h, data)) || !Begins(req))
    ensures w'.files == w.files && w'.nextFileId == w.nextFileId && w'.locations == w.locations && w'.blobs == w.blobs
  {
    var hash := Digest(h, data);
    var existing :| AnswersFind(w.files, hash, existing) && Ends(w, req, hash, data, existing, w', r);
    assert existing.Some? <==> HasHash(w.files, hash);
  }

  /** New content: a file row in any case, bytes if there is a backend that takes them, and a location
      if that is recorded too. */
  lemma NewContent(w: World, req: Request, h: Hasher, data: seq<byte>, w': World, r: Result<UploadResult, string>)
    requires Consistent(w) && !HasHash(w.files, Digest(h, data)) && Begins(req) && UploadsTo(w, req, h, data, w', r)
    ensures w'.files == w.files[w.nextFileId := NewFile(w, req, h, data)] && w'.nextFileId == w.nextFileId + 1
    ensures var primary := Primary(req.storages, req.registry);
      if primary.Some? && req.backendWorks then
        && w'.blobs == w.blobs[(primary.value.id, ContentPath(Digest(h, data))) := data]
        && w'.locations == (if req.locationWorks then [NewLocation(w, h, data, primary.value.id)] else []) + w.locations
      else w'.blobs == w.blobs && w'.locations == w.locations
  {
    var hash := Digest(h, data);
    var existing :| AnswersFind(w.files, hash, existing) && Ends(w, req, hash, data, existing, w', r);
    assert existing == None;
    var found := WithFile(w, w.nextFileId, CreateFile(hash, |data|, req.contentType));
    var primary := Primary(req.storages, req.registry);
    if primary.Some? { assert !HasLocation(found, w.nextFileId, primary.value.id); }
    assert [] + w.locations == w.locations;
  }

  lemma SameFile(w: World, w': World, h: Hasher, id: Uuid)
    requires id in w.files && id in w'.files && w'.files[id] == w.files[id]
    requires w'.locations == w.locations && w'.blobs == w.blobs
    ensures Intact(w', h, id) <==> Intact(w, h, id)
  {
    assert forall l | l in w.locations :: Holds(w', h, l, id) <==> Holds(w, h, l, id);
  }

  /** Bytes stored under the path of another hash, and perhaps a location of another file, change
      nothing for a file. */
  lemma StoringKeepsOthers(w: World, w': World, h: Hasher, id: Uuid, l: LocationRow, data: seq<byte>)
    requires Consistent(w) && id in w.files && l.fileId != id && l.path != ContentPath(w.files[id].hash)
    requires id in w'.files && w'.files[id] == w.files[id] && w'.blobs == w.blobs[(l.storageId, l.path) := data]
    requires w'.locations == [l] + w.locations || w'.locations == [] + w.locations
    ensures Intact(w', h, id) <==> Intact(w, h, id)
  {
    forall k | k in w.locations ensures Holds(w', h, k, id) <==> Holds(w, h, k, id) {
      assert k.fileId == id ==> k.path == ContentPath(w.files[id].hash);
    }
    assert !Holds(w', h, l, id);
    assert forall k :: k in w.locations ==> k in w'.locations;
    assert forall k :: k in w'.locations ==> k == l || k in w.locations;
  }

  /** An upload neither damages nor repairs any file that was there before. */
  lemma UploadKeepsOthers(w: World, req: Request, h: Hasher, data: seq<byte>, w': World,
                          r: Result<UploadResult, string>, id: Uuid)
    requires Consistent(w) && UploadsTo(w, req, h, data, w', r) && id in w.files
    ensures id in w'.files && w'.files[id] == w.files[id] && (Intact(w', h, id) <==> Intact(w, h, id))
  {
    var hash, primary := Digest(h, data), Primary(req.storages, req.registry);
    if HasHash(w.files, hash) || !Begins(req) {
      KnownContent(w, req, h, data, w', r);
      SameFile(w, w', h, id);
    } else {
      NewContent(w, req, h, data, w', r);
      if primary.Some? && req.backendWorks {
        assert w.files[id].hash != hash;
        if ContentPath(hash) == ContentPath(w.files[id].hash) { ContentPathInjective(hash, w.files[id].hash); }
        StoringKeepsOthers(w, w', h, id, NewLocation(w, h, data, primary.value.id), data);
      } else {
        SameFile(w, w', h, id);
      }
    }
  }

  /** References are only added, one by a success, none by a failure; all of them name files. */
  lemma UploadLinks(w: World, req: Request, h: Hasher, data: seq<byte>, w': World, r: Result<UploadResult, string>)
    requires Consistent(w) && UploadsTo(w, req, h, data, w', r)
    ensures w.refs <= w'.refs && |w'.refs| == |w.refs| + (if r.Ok? then 1 else 0)
    ensures forall ref | ref in w'.refs :: ref.fileId in w'.files && ref.id < w'.nextId
    ensures r.Ok? ==> IsLinked(w', req.projectId, Digest(h, data)) && r.value.reference.projectId == req.projectId
  {
    OutcomeIs(w, req, h, data, w', r);
    FilesOnlyGrow(w, req, h, data, w', r);
    if r.Ok? { assert r.value.reference in w'.refs; }
  }

  lemma FilesOnlyGrow(w: World, req: Request, h: Hasher, data: seq<byte>, w': World, r: Result<UploadResult, string>)
    requires Consistent(w) && UploadsTo(w, req, h, data, w', r)
    ensures w.files.Keys <= w'.files.Keys && w.nextId <= w'.nextId
    ensures r.Ok? ==> r.value.reference.id < w'.nextId
  {
    var hash := Digest(h, data);
    var existing :| AnswersFind(w.files, hash, existing) && Ends(w, req, hash, data, existing, w', r);
    if r.Ok? { assert w'.refs[|w.refs|] == r.value.reference; }
  }

  lemma AddedConsistent(w: World, req: Request, h: Hasher, data: seq<byte>, w': World,
                        r: Result<UploadResult, string>)
    requires Consistent(w) && UploadsTo(w, req, h, data, w', r) && !HasHash(w.files, Digest(h, data)) && Begins(req)
    ensures Consistent(w')
  {
    NewContent(w, req, h, data, w', r);
    UploadLinks(w, req, h, data, w', r);
    forall l | l in w'.locations ensures l.fileId in w'.files && l.path == ContentPath(w'.files[l.fileId].hash) {
    }
  }

  /** The row that an upload adds has its bytes behind it if and only if there was a storage that took
      them and the location was recorded, whatever became of the reference. */
  lemma AddedFile(w: World, req: Request, h: Hasher, data: seq<byte>, w': World, r: Result<UploadResult, string>)
    requires Consistent(w) && UploadsTo(w, req, h, data, w', r) && !HasHash(w.files, Digest(h, data)) && Begins(req)
    ensures Consistent(w') && w'.files.Keys == w.files.Keys + {w.nextFileId}
    ensures w'.files[w.nextFileId].hash == Digest(h, data)
    ensures Intact(w', h, w.nextFileId) <==> Storable(req)
  {
    NewContent(w, req, h, data, w', r);
    AddedConsistent(w, req, h, data, w', r);
    if Storable(req) {
      var l := NewLocation(w, h, data, Primary(req.storages, req.registry).value.id);
      assert l in w'.locations && Holds(w', h, l, w.nextFileId);
    }
  }

  /** What keeps everything intact, from what an upload is given and finds: the content is known, or
      there is none, or it can be stored. */
  predicate Harmless(w: World, req: Request, hash: string) { HasHash(w.files, hash) || !Begins(req) || Storable(req) }

  /** After an upload every file has its bytes somewhere, exactly if that was so before and the upload
      was harmless. */
  lemma UploadKeepsAllIntact(w: World, req: Request, h: Hasher, data: seq<byte>, w': World,
                             r: Result<UploadResult, string>)
    requires Consistent(w) && UploadsTo(w, req, h, data, w', r)
    ensures Consistent(w')
    ensures AllIntact(w', h) <==> AllIntact(w, h) && Harmless(w, req, Digest(h, data))
  {
    if HasHash(w.files, Digest(h, data)) || !Begins(req) {
      KnownContent(w, req, h, data, w', r);
    } else {
      AddedFile(w, req, h, data, w', r);
    }
    forall id | id in w.files ensures id in w'.files && (Intact(w', h, id) <==> Intact(w, h, id)) {
      UploadKeepsOthers(w, req, h, data, w', r, id);
    }
  }

  // ----- Any number of uploads -----

  datatype Upload = Upload(req: Request, data: seq<byte>, result: Result<UploadResult, string>)

  ghost predicate Uploads(w: World, u: Upload, h: Hasher, w': World) { UploadsTo(w, u.req, h, u.data, w', u.result) }

  ghost predicate IsRun(worlds: seq<World>, uploads: seq<Upload>, h: Hasher) {
    && |worlds| == |uploads| + 1 && Consistent(worlds[0])
    && forall i :: 0 <= i < |uploads| ==> Uploads(worlds[i], uploads[i], h, worlds[i + 1])
  }

  predicate HarmlessAt(worlds: seq<World>, uploads: seq<Upload>, h: Hasher, i: nat)
    requires i < |uploads| < |worlds|
  {
    Harmless(worlds[i], uploads[i].req, Digest(h, uploads[i].data))
  }

  /** In every run of uploads all files are intact if and only if they were at the start and every
      upload was harmless; one that was not is never made good by a later one. */
  lemma {:induction false} IntactIffAllHarmless(worlds: seq<World>, uploads: seq<Upload>, h: Hasher, n: nat)
    requires IsRun(worlds, uploads, h) && n <= |uploads|
    ensures Consistent(worlds[n])
    ensures AllIntact(worlds[n], h) <==>
      AllIntact(worlds[0], h) && forall i :: 0 <= i < n ==> HarmlessAt(worlds, uploads, h, i)
  {
    if n > 0 {
      IntactIffAllHarmless(worlds, uploads, h, n - 1);
      var u := uploads[n - 1];
      assert Uploads(worlds[n - 1], u, h, worlds[n]);
      UploadKeepsAllIntact(worlds[n - 1], u.req, h, u.data, worlds[n], u.result);
      assert HarmlessAt(worlds, uploads, h, n - 1) <==> Harmless(worlds[n - 1], u.req, Digest(h, u.data));
    }
  }

  lemma ConsistentAlong(worlds: seq<World>, uploads: seq<Upload>, h: Hasher, n: nat)
    requires IsRun(worlds, uploads, h) && n <= |uploads|
    ensures Consistent(worlds[n])
  {
    IntactIffAllHarmless(worlds, uploads, h, n);
  }

  /** The row is the same in both, and as intact. */
  predicate SameRow(w: World, w': World, h: Hasher, id: Uuid) {
    && id in w.files && id in w'.files && w'.files[id] == w.files[id]
    && (Intact(w', h, id) <==> Intact(w, h, id))
  }

  predicate KeptAt(worlds: seq<World>, h: Hasher, k: nat, id: Uuid)
    requires k + 1 < |worlds|
  {
    id in worlds[k].files ==> SameRow(worlds[k], worlds[k + 1], h, id)
  }

  lemma EachKeeps(worlds: seq<World>, uploads: seq<Upload>, h: Hasher, k: nat, id: Uuid)
    requires IsRun(worlds, uploads, h) && k < |uploads|
    ensures KeptAt(worlds, h, k, id)
  {
    ConsistentAlong(worlds, uploads, h, k);
    var u := uploads[k];
    assert Uploads(worlds[k], u, h, worlds[k + 1]);
    if id in worlds[k].files { UploadKeepsOthers(worlds[k], u.req, h, u.data, worlds[k + 1], u.result, id); }
  }

  lemma {:induction false} KeptAlong(worlds: seq<World>, h: Hasher, i: nat, n: nat, id: Uuid)
    requires i <= n < |worlds| && id in worlds[i].files
    requires forall k: nat :: i <= k < n ==> KeptAt(worlds, h, k, id)
    ensures SameRow(worlds[i], worlds[n], h, id)
    decreases n
  {
    if i < n {
      KeptAlong(worlds, h, i, n - 1, id);
      assert KeptAt(worlds, h, n - 1, id);
    }
  }

  /** A row stays as intact as it was first left. */
  lemma NeverRepaired(worlds: seq<World>, uploads: seq<Upload>, h: Hasher, i: nat, n: nat, id: Uuid)
    requires IsRun(worlds, uploads, h) && i <= n <= |uploads| && id in worlds[i].files
    ensures SameRow(worlds[i], worlds[n], h, id)
  {
    forall k: nat | i <= k < n ensures KeptAt(worlds, h, k, id) {
      EachKeeps(worlds, uploads, h, k, id);
    }
    KeptAlong(worlds, h, i, n, id);
  }

  /** A first upload of content that got as far as its row, then, after any other uploads, another one
      of the same content: it succeeds, as a duplicate, if there is a usable storage, and the bytes are
      there if and only if the first one could store them. */
  lemma RetryReportsSuccess(worlds: seq<World>, uploads: seq<Upload>, h: Hasher, i: nat, j: nat)
    requires IsRun(worlds, uploads, h) && i < j < |uploads| && uploads[j].data == uploads[i].data
    requires !HasHash(worlds[i].files, Digest(h, uploads[i].data)) && Begins(uploads[i].req)
    ensures var first, again := uploads[i].req, uploads[j];
      && (again.result.Ok? <==>
            Begins(again.req) && Primary(again.req.storages, again.req.registry).Some? && again.req.referenceWorks)
      && (again.result.Ok? ==>
            && again.result.value.isDuplicate && again.result.value.file.id == worlds[i].nextFileId
            && (Intact(worlds[j + 1], h, again.result.value.file.id) <==> Storable(first)))
  {
    var u, v, id := uploads[i], uploads[j], worlds[i].nextFileId;
    var hash := Digest(h, u.data);
    ConsistentAlong(worlds, uploads, h, i);
    ConsistentAlong(worlds, uploads, h, j);
    assert Uploads(worlds[i], u, h, worlds[i + 1]) && Uploads(worlds[j], v, h, worlds[j + 1]);
    AddedFile(worlds[i], u.req, h, u.data, worlds[i + 1], u.result);
    NeverRepaired(worlds, uploads, h, i + 1, j, id);
    assert HasHash(worlds[j].files, hash);
    SucceedsIff(worlds[j], v.req, h, v.data, worlds[j + 1], v.result);
    UploadKeepsOthers(worlds[j], v.req, h, v.data, worlds[j + 1], v.result, id);
    if v.result.Ok? { KnownFile(worlds[j], v, h, worlds[j + 1], id); }
  }

  lemma KnownFile(w: World, u: Upload, h: Hasher, w': World, id: Uuid)
    requires Consistent(w) && Uploads(w, u, h, w') && id in w.files && w.files[id].hash == Digest(h, u.data)
    ensures u.result.Ok? ==> u.result.value.file.id == id
  {
    var hash := Digest(h, u.data);
    assert HasHash(w.files, hash);
    var existing :| AnswersFind(w.files, hash, existing) && Ends(w, u.req, hash, u.data, existing, w', u.result);
    assert existing == Some(id);
  }

  lemma LinkStays(w: World, u: Upload, h: Hasher, w': World, projectId: Uuid, hash: string)
    requires Consistent(w) && Uploads(w, u, h, w') && IsLinked(w, projectId, hash)
    ensures IsLinked(w', projectId, hash)
  {
    UploadLinks(w, u.req, h, u.data, w', u.result);
    var ref :| ref in w.refs && ref.projectId == projectId && ref.fileId in w.files && w.files[ref.fileId].hash == hash;
    UploadKeepsOthers(w, u.req, h, u.data, w', u.result, ref.fileId);
    assert ref in w'.refs;
  }

  predicate LinkKept(worlds: seq<World>, k: nat, projectId: Uuid, hash: string)
    requires k + 1 < |worlds|
  {
    IsLinked(worlds[k], projectId, hash) ==> IsLinked(worlds[k + 1], projectId, hash)
  }

  lemma {:induction false} LinkAlong(worlds: seq<World>, i: nat, n: nat, projectId: Uuid, hash: string)
    requires i <= n < |worlds| && IsLinked(worlds[i], projectId, hash)
    requires forall k: nat :: i <= k < n ==> LinkKept(worlds, k, projectId, hash)
    ensures IsLinked(worlds[n], projectId, hash)
    decreases n
  {
    if i < n {
      LinkAlong(worlds, i, n - 1, projectId, hash);
      assert LinkKept(worlds, n - 1, projectId, hash);
    }
  }

  /** After a success the project is linked to the content for the rest of the run. */
  lemma LinkedForGood(worlds: seq<World>, uploads: seq<Upload>, h: Hasher, i: nat, n: nat)
    requires IsRun(worlds, uploads, h) && i < n <= |uploads| && uploads[i].result.Ok?
    ensures IsLinked(worlds[n], uploads[i].req.projectId, Digest(h, uploads[i].data))
  {
    var projectId, hash := uploads[i].req.projectId, Digest(h, uploads[i].data);
    LinkAt(worlds, uploads, h, i, projectId, hash);
    forall k: nat | i + 1 <= k < n ensures LinkKept(worlds, k, projectId, hash) {
      if IsLinked(worlds[k], projectId, hash) { LinkAt(worlds, uploads, h, k, projectId, hash); }
    }
    LinkAlong(worlds, i + 1, n, projectId, hash);
  }

  lemma LinkAt(worlds: seq<World>, uploads: seq<Upload>, h: Hasher, k: nat, projectId: Uuid, hash: string)
    requires IsRun(worlds, uploads, h) && k < |uploads|
    requires
      || IsLinked(worlds[k], projectId, hash)
      || (uploads[k].result.Ok? && projectId == uploads[k].req.projectId && hash == Digest(h, uploads[k].data))
    ensures IsLinked(worlds[k + 1], projectId, hash)
  {
    ConsistentAlong(worlds, uploads, h, k);
    var w, u, w' := worlds[k], uploads[k], worlds[k + 1];
    assert Uploads(w, u, h, w');
    if IsLinked(w, projectId, hash) {
      LinkStays(w, u, h, w', projectId, hash);
    } else {
      UploadLinks(w, u.req, h, u.data, w', u.result);
    }
  }
}
