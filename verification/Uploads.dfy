/**
 A resumable upload session driven by one client at a time: each PATCH appends to the temp file,
 then advances the recorded offset, and the one that completes the file hands it over.
 */
module Uploads {
  import opened Wrappers
  import opened Lists
  import opened Json
  import opened Tables
  import opened FileService

  /** The blocks a request delivers; a broken one fails after the last. */
  datatype Payload = Payload(blocks: seq<seq<byte>>, broken: bool)

  /** The blocks that get written: all before the first that does not fit. */
  function Fitting(blocks: seq<seq<byte>>, room: nat): seq<byte> {
    if blocks == [] || |blocks[0]| > room then [] else blocks[0] + Fitting(blocks[1..], room - |blocks[0]|)
  }

  /** Whole blocks, as many as there is room for. */
  lemma {:induction false} FittingIs(blocks: seq<seq<byte>>, room: nat) returns (n: nat)
    ensures n <= |blocks| && Fitting(blocks, room) == Flatten(blocks[..n]) && |Flatten(blocks[..n])| <= room
    ensures n < |blocks| ==> |Flatten(blocks[..n])| + |blocks[n]| > room
  {
    n := 0;
    assert Flatten(blocks[..0]) == [];
    if blocks != [] && |blocks[0]| <= room {
      var m := FittingIs(blocks[1..], room - |blocks[0]|);
      n := m + 1;
      assert blocks[..n][1..] == blocks[1..][..m];
    }
  }

  lemma {:induction false} FittingAll(blocks: seq<seq<byte>>, room: nat)
    ensures |Flatten(blocks)| <= room ==> Fitting(blocks, room) == Flatten(blocks)
    ensures |Fitting(blocks, room)| <= room
  {
    if blocks != [] && |blocks[0]| <= room { FittingAll(blocks[1..], room - |blocks[0]|); }
  }

  lemma {:induction false} FittingUpTo(blocks: seq<seq<byte>>, room: nat, i: nat)
    requires i < |blocks| && |Flatten(blocks[..i])| <= room < |Flatten(blocks[..i])| + |blocks[i]|
    ensures Fitting(blocks, room) == Flatten(blocks[..i])
  {
    if i > 0 {
      assert blocks[..i][1..] == blocks[1..][..i - 1];
      assert Flatten(blocks[..i]) == blocks[0] + Flatten(blocks[1..][..i - 1]);
      FittingUpTo(blocks[1..], room - |blocks[0]|, i - 1);
    }
  }

  /** Deleted stands for a session whose row is gone. */
  datatype Status = InProgress | Completed | Deleted

  datatype Response =
    | NoContent(offset: nat)
    | SessionNotFound
    | NotInProgress
    | MissingOffset
    | OffsetConflict
    | TempFileMissing
    | Overrun
    | PayloadError
    | ConcurrentModification
    | FinalizeFailed(error: string)

  /** The first check that a refused PATCH fails, the temp file coming last. */
  function Refusal(status: Status, clientOffset: Option<int>, offset: nat): Response {
    if status == Deleted then SessionNotFound
    else if status != InProgress then NotInProgress
    else if clientOffset.None? then MissingOffset
    else if clientOffset.value != offset then OffsetConflict
    else TempFileMissing
  }

  datatype Writing = Complete | TooLong | Broken

  class UploadSession {
    const service: Service
    const hasher: Hasher
    const projectId: Uuid
    const originalName: string
    const contentType: string
    const metadata: Json
    const total: nat
    var temp: Option<seq<byte>>
    var offset: nat
    var status: Status

    constructor (service: Service, hasher: Hasher, projectId: Uuid, originalName: string, contentType: string,
                 metadata: Json, total: nat)
      requires total > 0
      ensures Valid() && this.service == service && this.hasher == hasher && this.total == total
      ensures this.projectId == projectId && this.originalName == originalName && this.contentType == contentType
      ensures this.metadata == metadata
      ensures temp == Some([]) && offset == 0 && status == InProgress
    {
      this.service, this.hasher, this.projectId, this.originalName := service, hasher, projectId, originalName;
      this.contentType, this.metadata, this.total := contentType, metadata, total;
      temp, offset, status := Some([]), 0, InProgress;
    }

    ghost predicate Valid()
      reads this
    {
      offset <= total && (temp.Some? ==> offset <= |temp.value|)
    }

    /** What finalizing passes on, in the environment `env` of that moment. */
    function RequestIn(env: Request): Request {
      env.(projectId := projectId, originalName := originalName, contentType := contentType, metadata := metadata)
    }

    method WriteBlocks(payload: Payload) returns (written: nat, outcome: Writing)
      requires Valid() && temp.Some?
      modifies this`temp
      ensures Valid() && temp == Some(old(temp).value + Fitting(payload.blocks, total - offset))
      ensures outcome.TooLong? <==> |Flatten(payload.blocks)| > total - offset
      ensures outcome.Broken? ==> payload.broken
      ensures outcome.Complete? ==> !payload.broken && written == |Flatten(payload.blocks)|
    {
      written := 0;
      var blocks := payload.blocks;
      var i := 0;
      while i < |blocks|
        invariant i <= |blocks|
        invariant written == |Flatten(blocks[..i])| <= total - offset
        invariant temp.Some? && temp.value == old(temp).value + Flatten(blocks[..i])
      {
        FlattenSnoc(blocks, i);
        if offset + written + |blocks[i]| > total {
          FittingUpTo(blocks, total - offset, i);
          FlattenSplit(blocks, i + 1);
          return written, TooLong;
        }
        assert temp.value + blocks[i] == old(temp).value + (Flatten(blocks[..i]) + blocks[i]);
        temp := Some(temp.value + blocks[i]);
        written := written + |blocks[i]|;
        i := i + 1;
      }
      assert blocks[..i] == blocks;
      FittingAll(blocks, total - offset);
      outcome := if payload.broken then Broken else Complete;
    }

    /** The compare-and-set on the session row. */
    method AdvanceOffset(expected: nat, newOffset: nat) returns (updated: bool)
      modifies this`offset
      ensures updated <==> old(offset) == expected && status == InProgress
      ensures offset == if updated then newOffset else old(offset)
    {
      updated := offset == expected && status == InProgress;
      if updated { offset := newOffset; }
    }

    method Finalize(env: Request) returns (r: Result<UploadResult, string>)
      requires temp.Some? && service.Valid()
      modifies this`temp, this`status, service, service.table
      ensures service.Valid()
      ensures UploadsTo(old(service.State()), RequestIn(env), hasher, old(temp).value, service.State(), r)
      ensures temp == if r.Ok? then None else old(temp)
      ensures status == if r.Ok? then Completed else old(status)
    {
      r := service.FinalizeUpload(RequestIn(env), hasher, temp.value);
      if r.Ok? {
        status := Completed;
        temp := None;
      }
    }

    /** DELETE: the temp file and the row; false if there was no row. */
    method Terminate() returns (found: bool)
      modifies this`temp, this`status
      ensures found <==> old(status) != Deleted
      ensures status == Deleted && temp == if found then None else old(temp)
    {
      found := status != Deleted;
      if found {
        temp := None;
        status := Deleted;
      }
    }

    method Patch(clientOffset: Option<int>, payload: Payload, env: Request)
      returns (response: Response, finalized: Option<Result<UploadResult, string>>)
      requires Valid() && service.Valid()
      modifies this`temp, this`offset, this`status, service, service.table
      ensures Valid() && service.Valid()
      ensures
        var body := Flatten(payload.blocks);
        if old(status) != InProgress || clientOffset != Some(old(offset)) || old(temp).None? then
          && response == Refusal(old(status), clientOffset, old(offset)) && finalized.None?
          && temp == old(temp) && offset == old(offset) && status == old(status)
          && service.State() == old(service.State())
        else if old(offset) + |body| > total || payload.broken then
          && response == (if old(offset) + |body| > total then Overrun else PayloadError) && finalized.None?
          && temp == Some(old(temp).value + Fitting(payload.blocks, total - old(offset)))
          && offset == old(offset) && status == InProgress && service.State() == old(service.State())
        else
          && offset == old(offset) + |body|
          && (finalized.Some? <==> offset == total)
          && (finalized.None? ==>
                && response == NoContent(offset) && status == InProgress && service.State() == old(service.State())
                && temp == Some(old(temp).value + body))
          && (finalized.Some? ==>
                && UploadsTo(old(service.State()), RequestIn(env), hasher, old(temp).value + body,
                             service.State(), finalized.value)
                && (response == NoContent(total) <==> finalized.value.Ok?)
                && temp == (if finalized.value.Ok? then None else Some(old(temp).value + body))
                && status == if finalized.value.Ok? then Completed else InProgress)
      ensures
        && (response == SessionNotFound <==> old(status) == Deleted)
        && (response == NotInProgress <==> old(status) == Completed)
        && (response == MissingOffset <==> old(status) == InProgress && clientOffset == None)
        && (response == OffsetConflict <==>
              old(status) == InProgress && clientOffset.Some? && clientOffset.value != old(offset))
        && (response == TempFileMissing <==>
              old(status) == InProgress && clientOffset == Some(old(offset)) && old(temp) == None)
    {
      finalized := None;
      if status == Deleted { return SessionNotFound, None; }
      if status != InProgress { return NotInProgress, None; }
      if clientOffset.None? { return MissingOffset, None; }
      if clientOffset.value != offset { return OffsetConflict, None; }
      if temp.None? { return TempFileMissing, None; }
      var base := offset;
      FittingAll(payload.blocks, total - offset);
      var written, outcome := WriteBlocks(payload);
      match outcome
      case TooLong => response := Overrun;
      case Broken => response := PayloadError;
      case Complete =>
        var updated := AdvanceOffset(base, base + written);
        if !updated { return ConcurrentModification, None; }
        response := NoContent(offset);
        if offset >= total {
          var r := Finalize(env);
          finalized := Some(r);
          if r.Err? { response := FinalizeFailed(r.error); }
        }
    }
  }

  /** Creation: the declared length must be positive and within the limit, 0 standing for none. */
  method Create(service: Service, h: Hasher, projectId: Uuid, originalName: string, contentType: string,
                metadata: Json, total: int, maxFileSize: nat)
    returns (r: Result<UploadSession, string>)
    ensures r.Ok? <==> 0 < total && (maxFileSize == 0 || total <= maxFileSize)
    ensures r.Ok? ==> r.value.Valid() && fresh(r.value) && r.value.service == service && r.value.hasher == h
    ensures r.Ok? ==> r.value.total == total && r.value.projectId == projectId && r.value.metadata == metadata
    ensures r.Ok? ==> r.value.originalName == originalName && r.value.contentType == contentType
    ensures r.Ok? ==> r.value.offset == 0 && r.value.temp == Some([]) && r.value.status == InProgress
  {
    if total <= 0 { return Err("Upload-Length must be positive"); }
    if maxFileSize > 0 && total > maxFileSize { return Err("File exceeds maximum allowed size"); }
    var session := new UploadSession(service, h, projectId, originalName, contentType, metadata, total);
    r := Ok(session);
  }

  /** A whole session of a client that sends `data` in any division into PATCH bodies and blocks,
      always at the current offset, until the file is complete: the tables, the backends and the
      outcome are what one upload of the whole string could have left. */
  method UploadInParts(service: Service, h: Hasher, env: Request, data: seq<byte>, bodies: seq<seq<seq<byte>>>)
    returns (r: Result<UploadResult, string>)
    requires service.Valid() && |data| > 0
    requires Flatten(seq(|bodies|, i requires 0 <= i < |bodies| => Flatten(bodies[i]))) == data
    modifies service, service.table
    ensures service.Valid()
    ensures UploadsTo(old(service.State()), env, h, data, service.State(), r)
  {
    var session := new UploadSession(service, h, env.projectId, env.originalName, env.contentType, env.metadata,
      |data|);
    ghost var parts := seq(|bodies|, i requires 0 <= i < |bodies| => Flatten(bodies[i]));
    var i := 0;
    while true
      invariant i <= |bodies|
      invariant session.Valid() && service.Valid() && session.status == InProgress
      invariant session.temp == Some(Flatten(parts[..i])) && session.offset == |Flatten(parts[..i])| < |data|
      invariant service.State() == old(service.State())
      decreases |bodies| - i
    {
      assert parts[..|bodies|] == parts;
      assert i < |bodies|;
      FlattenSnoc(parts, i);
      FlattenSplit(parts, i + 1);
      var response, finalized := session.Patch(Some(session.offset), Payload(bodies[i], false), env);
      i := i + 1;
      if finalized.Some? {
        assert session.RequestIn(env) == env;
        assert Flatten(parts[..i]) == data;
        return finalized.value;
      }
    }
  }
}
