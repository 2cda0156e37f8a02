/** The sync_tasks table: the statements that workers run against it. */
module SyncQueue {
  import opened Wrappers
  import opened Lists
  import opened Tables

  datatype Status = Pending | InProgress | Completed | Failed

  datatype Task = Task(
    fileId: Uuid, source: Uuid, target: Uuid, status: Status, retries: nat,
    retryAfter: Option<Time>, createdAt: Time)

  type Rows = map<Uuid, Task>

  // ----- Statements, as functions of the table -----

  /** Tasks in progress for too long go back to pending, one retry poorer. */
  function Reclaimed(rows: Rows, stale: set<Uuid>): Rows {
    map id | id in rows ::
      if id in stale && rows[id].status == InProgress
      then rows[id].(status := Pending, retries := rows[id].retries + 1)
      else rows[id]
  }

  function Exhausted(rows: Rows, maxRetries: nat): Rows {
    map id | id in rows ::
      if rows[id].status == Pending && rows[id].retries >= maxRetries then rows[id].(status := Failed) else rows[id]
  }

  predicate Eligible(t: Task, maxRetries: nat, now: Time) {
    t.status == Pending && t.retries < maxRetries && (t.retryAfter.None? || t.retryAfter.value <= now)
  }

  function Power2(n: nat): nat { if n == 0 then 1 else 2 * Power2(n - 1) }

  const CAP: nat := 300

  /** Seconds until the next attempt: 2^retries, at most five minutes. */
  function Delay(retries: nat): nat { if Power2(retries) < CAP then Power2(retries) else CAP }

  function Requeued(t: Task, now: Time): Task {
    t.(status := Pending, retries := t.retries + 1, retryAfter := Some(now + Delay(t.retries)))
  }

  lemma {:induction false} DelayBounds(retries: nat)
    ensures 1 <= Delay(retries) <= CAP
  {
    if retries > 0 { DelayBounds(retries - 1); }
  }

  /** `update_status`: a failure also costs a retry. */
  function WithStatus(t: Task, status: Status): Task {
    t.(status := status, retries := if status == Failed then t.retries + 1 else t.retries)
  }

  /** Marks the claimed tasks, whatever has become of them since they were selected. */
  function Marked(rows: Rows, ids: set<Uuid>): Rows {
    map id | id in rows :: if id in ids then rows[id].(status := InProgress) else rows[id]
  }

  function SupersededIds(rows: Rows, fileId: Uuid, target: Uuid, winner: Uuid): set<Uuid> {
    set id | id in rows && rows[id].status == Failed && rows[id].fileId == fileId && rows[id].target == target
      && id != winner
  }

  function Superseded(rows: Rows, ids: set<Uuid>): Rows {
    map id | id in rows :: if id in ids then rows[id].(status := Completed) else rows[id]
  }

  // ----- The claim's SELECT -----

  predicate Ordered(rows: Rows, ids: seq<Uuid>) {
    && (forall id | id in ids :: id in rows)
    && (forall i, j :: 0 <= i < j < |ids| ==> ids[i] != ids[j] && rows[ids[i]].createdAt <= rows[ids[j]].createdAt)
  }

  /** The oldest `limit` eligible tasks, each once. */
  predicate Picked(rows: Rows, maxRetries: nat, now: Time, limit: nat, ids: seq<Uuid>) {
    && Ordered(rows, ids)
    && |ids| <= limit
    && (forall id | id in ids :: Eligible(rows[id], maxRetries, now))
    && (forall id | id in rows && id !in ids && Eligible(rows[id], maxRetries, now) ::
          |ids| == limit && forall p | p in ids :: rows[p].createdAt <= rows[id].createdAt)
  }

  datatype Claimed = Claimed(id: Uuid, task: Task)

  /** No delay outstanding. */
  predicate Due(t: Task, now: Time) { t.retryAfter.Some? ==> t.retryAfter.value <= now }

  /** What a claim makes of a row: in progress for too long costs a retry and counts as pending; pending
      without a retry left has failed, and otherwise is in progress if it is handed out. */
  predicate AfterClaim(was: Task, after: Task, isStale: bool, isClaimed: bool, maxRetries: nat) {
    && after == was.(status := after.status, retries := after.retries)
    && if was.status == Pending || (was.status == InProgress && isStale) then
         && after.retries == was.retries + (if was.status == Pending then 0 else 1)
         && after.status == (if after.retries >= maxRetries then Failed else if isClaimed then InProgress else Pending)
         && (isClaimed ==> after.retries < maxRetries)
       else after == was && !isClaimed
  }

  /** What has been picked is due, and handed out unless another holds its lock; what is due and has not
      been picked is no older, and the list is full. */
  predicate FairlyPicked(rows: Rows, now: Time, limit: nat, busy: set<Uuid>, picked: seq<Uuid>) {
    && (forall id | id in picked :: id in rows && Due(rows[id], now) && (rows[id].status == InProgress || id in busy))
    && (forall id | id in rows && id !in picked && rows[id].status == Pending && Due(rows[id], now) ::
          |picked| == limit && forall p | p in picked :: p in rows && rows[p].createdAt <= rows[id].createdAt)
  }

  lemma RowAfterClaim(rows: Rows, stale: set<Uuid>, maxRetries: nat, now: Time, limit: nat, claimed: set<Uuid>,
                      picked: seq<Uuid>, id: Uuid)
    requires id in rows && claimed <= Elements(picked)
    requires Picked(Exhausted(Reclaimed(rows, stale), maxRetries), maxRetries, now, limit, picked)
    ensures
      var after := Marked(Exhausted(Reclaimed(rows, stale), maxRetries), claimed);
      AfterClaim(rows[id], after[id], id in stale, id in claimed, maxRetries)
  {
    assert id in claimed ==> id in picked;
  }

  lemma PickedFairly(before: Rows, maxRetries: nat, now: Time, limit: nat, busy: set<Uuid>, picked: seq<Uuid>)
    requires Picked(before, maxRetries, now, limit, picked)
    requires forall id | id in before :: before[id].status == Pending ==> before[id].retries < maxRetries
    ensures FairlyPicked(Marked(before, Elements(picked) - busy), now, limit, busy, picked)
  {
  }

  /** The claim's statements and marks, row by row. */
  lemma ClaimLeaves(rows: Rows, stale: set<Uuid>, maxRetries: nat, now: Time, limit: nat, busy: set<Uuid>,
                    picked: seq<Uuid>)
    requires Picked(Exhausted(Reclaimed(rows, stale), maxRetries), maxRetries, now, limit, picked)
    ensures
      var claimed := Elements(picked) - busy;
      var after := Marked(Exhausted(Reclaimed(rows, stale), maxRetries), claimed);
      && after.Keys == rows.Keys && claimed <= rows.Keys
      && (forall id | id in rows :: AfterClaim(rows[id], after[id], id in stale, id in claimed, maxRetries))
      && FairlyPicked(after, now, limit, busy, picked)
    ensures |picked| == |Elements(picked)| <= limit
  {
    var claimed := Elements(picked) - busy;
    DistinctCount(picked);
    PickedFairly(Exhausted(Reclaimed(rows, stale), maxRetries), maxRetries, now, limit, busy, picked);
    forall id | id in rows
      ensures
        var after := Marked(Exhausted(Reclaimed(rows, stale), maxRetries), claimed);
        AfterClaim(rows[id], after[id], id in stale, id in claimed, maxRetries)
    {
      RowAfterClaim(rows, stale, maxRetries, now, limit, claimed, picked, id);
    }
  }

  class TaskTable {
    var rows: Rows
    var now: Time

    constructor (now: Time)
      ensures rows == map[] && this.now == now
    {
      rows, this.now := map[], now;
    }

    method Create(id: Uuid, fileId: Uuid, source: Uuid, target: Uuid)
      requires id !in rows
      modifies this`rows
      ensures rows == old(rows)[id := Task(fileId, source, target, Pending, 0, None, now)]
    {
      rows := rows[id := Task(fileId, source, target, Pending, 0, None, now)];
    }

    method UpdateStatus(id: Uuid, status: Status) returns (r: Result<Task, string>)
      modifies this`rows
      ensures r.Ok? <==> id in old(rows)
      ensures r.Ok? ==> r.value == WithStatus(old(rows)[id], status) && rows == old(rows)[id := r.value]
      ensures r.Ok? ==> r.value.status == status && r.value.retryAfter == old(rows)[id].retryAfter
      ensures r.Ok? ==> r.value.retries == old(rows)[id].retries + if status == Failed then 1 else 0
      ensures r.Err? ==> rows == old(rows)
    {
      if id !in rows { return Err("Sync task not found"); }
      rows := rows[id := WithStatus(rows[id], status)];
      r := Ok(rows[id]);
    }

    method RequeueForRetry(id: Uuid) returns (r: Result<Task, string>)
      modifies this`rows
      ensures r.Ok? <==> id in old(rows)
      ensures r.Ok? ==> r.value == Requeued(old(rows)[id], now) && rows == old(rows)[id := r.value]
      ensures r.Ok? ==> r.value.status == Pending && r.value.retries == old(rows)[id].retries + 1
      ensures r.Ok? ==> r.value.retryAfter.Some? && now < r.value.retryAfter.value <= now + CAP
      ensures r.Err? ==> rows == old(rows)
    {
      if id !in rows { return Err("Sync task not found"); }
      DelayBounds(rows[id].retries);
      rows := rows[id := Requeued(rows[id], now)];
      r := Ok(rows[id]);
    }

    method SupersedeFailedFor(fileId: Uuid, target: Uuid, winner: Uuid) returns (touched: nat)
      modifies this`rows
      ensures var ids := SupersededIds(old(rows), fileId, target, winner);
        rows == Superseded(old(rows), ids) && touched == |ids|
      ensures rows.Keys == old(rows).Keys
      ensures forall id | id in rows :: rows[id] == old(rows)[id].(status := rows[id].status)
      ensures forall id | id in rows && rows[id] != old(rows)[id] ::
        && old(rows)[id].status == Failed && rows[id].status == Completed
        && rows[id].fileId == fileId && rows[id].target == target && id != winner
      ensures touched == |set id | id in rows && rows[id] != old(rows)[id]|
      ensures forall id |
        id in rows && rows[id].fileId == fileId && rows[id].target == target && rows[id].status == Failed ::
        id == winner
    {
      var ids := SupersededIds(rows, fileId, target, winner);
      rows := Superseded(rows, ids);
      touched := |ids|;
      assert ids == set id | id in rows && rows[id] != old(rows)[id];
    }

    /** SELECT .. ORDER BY created_at LIMIT. */
    method SelectClaimable(maxRetries: nat, limit: nat) returns (ids: seq<Uuid>)
      ensures Picked(rows, maxRetries, now, limit, ids)
    {
      ids := [];
      var left := set id | id in rows && Eligible(rows[id], maxRetries, now);
      while |ids| < limit && left != {}
        invariant Ordered(rows, ids) && |ids| <= limit
        invariant forall id :: id in left || id in ids <==> id in rows && Eligible(rows[id], maxRetries, now)
        invariant forall id, p :: id in left && p in ids ==> id != p && rows[p].createdAt <= rows[id].createdAt
        decreases |left|
      {
        var oldest := Oldest(left);
        ids := ids + [oldest];
        left := left - {oldest};
      }
    }

    method Oldest(ids: set<Uuid>) returns (oldest: Uuid)
      requires ids != {} && forall id | id in ids :: id in rows
      ensures oldest in ids && forall id | id in ids :: rows[oldest].createdAt <= rows[id].createdAt
    {
      oldest :| oldest in ids;
      var left := ids - {oldest};
      while left != {}
        invariant left <= ids && oldest in ids
        invariant forall id | id in ids - left :: rows[oldest].createdAt <= rows[id].createdAt
        decreases |left|
      {
        var id :| id in left;
        if rows[id].createdAt < rows[oldest].createdAt { oldest := id; }
        left := left - {id};
      }
    }

    /** One whole claim with nobody in between. `stale` are rows in progress for over fifteen
        minutes; `busy` those whose advisory lock another transaction holds. */
    method ClaimPending(limit: nat, maxRetries: nat, stale: set<Uuid>, busy: set<Uuid>)
      returns (claimed: seq<Claimed>, picked: seq<Uuid>)
      modifies this`rows
      ensures var before := Exhausted(Reclaimed(old(rows), stale), maxRetries);
        && Picked(before, maxRetries, now, limit, picked)
        && ClaimedIds(claimed) == Elements(picked) - busy && |claimed| == |ClaimedIds(claimed)|
        && rows == Marked(before, ClaimedIds(claimed))
        && forall c | c in claimed :: c.id in before && c.task == before[c.id].(status := InProgress)
      ensures rows.Keys == old(rows).Keys
      ensures forall id | id in rows ::
        AfterClaim(old(rows)[id], rows[id], id in stale, id in ClaimedIds(claimed), maxRetries)
      ensures forall c | c in claimed :: c.id in rows && c.task == rows[c.id]
      ensures |picked| == |Elements(picked)| <= limit && ClaimedIds(claimed) <= rows.Keys
      ensures FairlyPicked(rows, now, limit, busy, picked)
    {
      rows := Reclaimed(rows, stale);
      rows := Exhausted(rows, maxRetries);
      picked := SelectClaimable(maxRetries, limit);
      claimed := ClaimEach(picked, busy);
      ClaimLeaves(old(rows), stale, maxRetries, now, limit, busy, picked);
    }

    /** A transaction a task: lock, mark, commit; or roll back when another holds the lock. */
    method ClaimEach(ids: seq<Uuid>, busy: set<Uuid>) returns (claimed: seq<Claimed>)
      requires forall id | id in ids :: id in rows
      requires forall i, j :: 0 <= i < j < |ids| ==> ids[i] != ids[j]
      modifies this`rows
      ensures ClaimedIds(claimed) == Elements(ids) - busy && |claimed| == |ClaimedIds(claimed)|
      ensures rows == Marked(old(rows), ClaimedIds(claimed))
      ensures forall c | c in claimed :: c.id in old(rows) && c.task == old(rows)[c.id].(status := InProgress)
    {
      var snapshot := rows;
      claimed := [];
      for i := 0 to |ids|
        invariant Progress(snapshot, rows, Elements(ids[..i]), busy, claimed)
      {
        var id := ids[i];
        assert Elements(ids[..i + 1]) == Elements(ids[..i]) + {id} && id !in ids[..i];
        if id !in busy {
          var c := Claimed(id, snapshot[id].(status := InProgress));
          OneMoreClaimed(snapshot, rows, Elements(ids[..i]), busy, claimed, c);
          rows := rows[id := rows[id].(status := InProgress)];
          claimed := claimed + [c];
        }
      }
      assert ids[..|ids|] == ids;
    }
  }

  function ClaimedIds(claimed: seq<Claimed>): set<Uuid> { set c | c in claimed :: c.id }

  /** Those in `done` have been tried; the free ones are marked and claimed. */
  predicate Progress(snapshot: Rows, rows: Rows, done: set<Uuid>, busy: set<Uuid>, claimed: seq<Claimed>) {
    && ClaimedIds(claimed) == done - busy && |claimed| == |ClaimedIds(claimed)|
    && rows == Marked(snapshot, ClaimedIds(claimed))
    && forall c | c in claimed :: c.id in snapshot && c.task == snapshot[c.id].(status := InProgress)
  }

  lemma OneMoreClaimed(snapshot: Rows, rows: Rows, done: set<Uuid>, busy: set<Uuid>, claimed: seq<Claimed>,
                       c: Claimed)
    requires Progress(snapshot, rows, done, busy, claimed)
    requires c.id in snapshot && c.id !in done && c.id !in busy && c.task == snapshot[c.id].(status := InProgress)
    ensures Progress(snapshot, rows[c.id := rows[c.id].(status := InProgress)], done + {c.id}, busy, claimed + [c])
  {
    ClaimedOneMore(claimed, c);
    MarkOneMore(snapshot, ClaimedIds(claimed), c.id);
    assert ClaimedIds(claimed) + {c.id} == (done + {c.id}) - busy;
  }

  lemma MarkOneMore(rows: Rows, ids: set<Uuid>, id: Uuid)
    requires id in rows
    ensures Marked(rows, ids + {id}) == Marked(rows, ids)[id := Marked(rows, ids)[id].(status := InProgress)]
  {
  }

  lemma ClaimedOneMore(claimed: seq<Claimed>, c: Claimed)
    requires c.id !in ClaimedIds(claimed)
    ensures ClaimedIds(claimed + [c]) == ClaimedIds(claimed) + {c.id}
    ensures |ClaimedIds(claimed + [c])| == |ClaimedIds(claimed)| + 1
  {
    assert ClaimedIds(claimed + [c]) == ClaimedIds(claimed) + {c.id};
  }
}
