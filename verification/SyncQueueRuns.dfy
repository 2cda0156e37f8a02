/**
 Many workers on one sync queue. A claim is not one step: it opens, selects a snapshot, then marks
 the selected tasks one by one without looking at their status again, while everything else goes on.
 */
module SyncQueueRuns {
  import opened Tables
  import opened SyncQueue

  type CallId = nat

  /** A call of claim_pending and its worker. `listed` once it has selected; `selected` remembers the
      retries it read; `todo` are the selected tasks it has yet to try, `claimed` those it has handed to
      its worker, and `working` those that the worker still has. */
  datatype Call = Call(
    open: bool, listed: bool, selected: map<Uuid, nat>, todo: set<Uuid>, claimed: set<Uuid>, working: set<Uuid>)

  datatype State = State(rows: Rows, calls: map<CallId, Call>, now: Time)

  /** maxRetries is the workers' setting, width the most calls in flight at once. */
  datatype Limits = Limits(maxRetries: nat, width: nat)

  datatype Step =
    | Begin(call: CallId)
    | Reclaim(stale: set<Uuid>)
    | Exhaust
    | Select(call: CallId, ids: set<Uuid>)
    | Claim(call: CallId, task: Uuid, won: bool)   // lost: another transaction has the lock
    | End(call: CallId)
    | Requeue(call: CallId, task: Uuid)
    | Finish(call: CallId, task: Uuid, status: Status)
    | Abandon(call: CallId, task: Uuid)            // the worker stops, or its report is lost
    | Supersede(fileId: Uuid, target: Uuid, winner: Uuid)
    | Create(task: Uuid, row: Task)
    | Tick(time: Time)

  function Open(s: State): set<CallId> { set c | c in s.calls && s.calls[c].open }

  /** The call is over and its worker has the task. */
  predicate WorksOn(s: State, c: CallId, t: Uuid) { c in s.calls && !s.calls[c].open && t in s.calls[c].working }

  function Released(s: State, c: CallId, t: Uuid): State
    requires c in s.calls
  {
    s.(calls := s.calls[c := s.calls[c].(working := s.calls[c].working - {t})])
  }

  predicate Enabled(s: State, step: Step, lim: Limits) {
    match step
    case Begin(c) => c !in s.calls && |Open(s)| < lim.width
    case Reclaim(_) => true
    case Exhaust => true
    case Select(c, ids) =>
      && c in s.calls && s.calls[c].open && !s.calls[c].listed
      && forall id | id in ids :: id in s.rows && Eligible(s.rows[id], lim.maxRetries, s.now)
    case Claim(c, t, _) => c in s.calls && t in s.calls[c].todo && t in s.rows
    case End(c) => c in s.calls && s.calls[c].open
    case Requeue(c, t) => WorksOn(s, c, t) && t in s.rows
    case Finish(c, t, status) => WorksOn(s, c, t) && t in s.rows && (status == Completed || status == Failed)
    case Abandon(c, t) => WorksOn(s, c, t)
    case Supersede(_, _, _) => true
    case Create(t, row) => t !in s.rows && row.status == Pending && row.retries == 0
    case Tick(time) => time >= s.now
  }

  function Apply(s: State, step: Step, lim: Limits): State
    requires Enabled(s, step, lim)
  {
    match step
    case Begin(c) => s.(calls := s.calls[c := Call(true, false, map[], {}, {}, {})])
    case Reclaim(stale) => s.(rows := Reclaimed(s.rows, stale))
    case Exhaust => s.(rows := Exhausted(s.rows, lim.maxRetries))
    case Select(c, ids) =>
      var read := map id | id in ids :: s.rows[id].retries;
      s.(calls := s.calls[c := s.calls[c].(listed := true, selected := read, todo := ids)])
    case Claim(c, t, won) =>
      var call := s.calls[c].(todo := s.calls[c].todo - {t});
      if won then
        var won' := call.(claimed := call.claimed + {t}, working := call.working + {t});
        State(s.rows[t := s.rows[t].(status := InProgress)], s.calls[c := won'], s.now)
      else s.(calls := s.calls[c := call])
    case End(c) => s.(calls := s.calls[c := s.calls[c].(open := false, todo := {})])
    case Requeue(c, t) => Released(s, c, t).(rows := s.rows[t := Requeued(s.rows[t], s.now)])
    case Finish(c, t, status) => Released(s, c, t).(rows := s.rows[t := WithStatus(s.rows[t], status)])
    case Abandon(c, t) => Released(s, c, t)
    case Supersede(f, target, winner) => s.(rows := Superseded(s.rows, SupersededIds(s.rows, f, target, winner)))
    case Create(t, row) => s.(rows := s.rows[t := row])
    case Tick(time) => s.(now := time)
  }

  /** `states[i]` --steps[i]--> `states[i + 1]`, from a state without calls. */
  predicate IsRun(states: seq<State>, steps: seq<Step>, lim: Limits) {
    && |states| == |steps| + 1
    && states[0].calls == map[]
    && forall i :: 0 <= i < |steps| ==>
      Enabled(states[i], steps[i], lim) && states[i + 1] == Apply(states[i], steps[i], lim)
  }

  // ----- The invariant -----

  /** Calls that handed `t` out, or still may, having read it with `r` retries. */
  function Holders(s: State, t: Uuid, r: nat): set<CallId> {
    set c | c in s.calls && t in s.calls[c].selected && s.calls[c].selected[t] == r
      && (t in s.calls[c].todo || t in s.calls[c].claimed)
  }

  predicate CallOk(call: Call, lim: Limits) {
    && call.todo <= call.selected.Keys && call.claimed <= call.selected.Keys && call.todo !! call.claimed
    && (!call.open ==> call.todo == {}) && (!call.listed ==> call.selected == map[])
    && (forall t | t in call.selected :: call.selected[t] < lim.maxRetries)
  }

  predicate CallsOk(s: State, lim: Limits) { forall c | c in s.calls :: CallOk(s.calls[c], lim) }

  /** No call has read more retries than the row now has. */
  predicate ReadsAreOld(s: State) {
    forall c, t | c in s.calls && t in s.calls[c].selected ::
      t in s.rows && s.calls[c].selected[t] <= s.rows[t].retries
  }

  /** While `t` is pending nobody has handed it out since it became so. */
  predicate PendingUnclaimed(s: State) {
    forall c, t | c in s.calls && t in s.calls[c].claimed && t in s.calls[c].selected && t in s.rows ::
      s.rows[t].status == Pending ==> s.calls[c].selected[t] < s.rows[t].retries
  }

  ghost predicate FewHolders(s: State, lim: Limits) { forall t, r :: |Holders(s, t, r)| <= lim.width }

  ghost predicate Inv(s: State, lim: Limits) {
    && |Open(s)| <= lim.width
    && CallsOk(s, lim)
    && ReadsAreOld(s)
    && PendingUnclaimed(s)
    && FewHolders(s, lim)
  }

  lemma Subset(a: set<CallId>, b: set<CallId>)
    requires a <= b
    ensures |a| <= |b|
  {
    if a != b {
      var x :| x in b && x !in a;
      Subset(a, b - {x});
    }
  }

  /** Nothing changes about what the calls have read and handed out. */
  predicate SameCalls(s: State, s': State) {
    && s'.calls.Keys == s.calls.Keys
    && forall c | c in s.calls :: s'.calls[c] == s.calls[c].(working := s'.calls[c].working)
  }

  /** Steps that raise retries on the way back to pending. */
  predicate RowsAdvance(rows: Rows, rows': Rows) {
    forall t | t in rows ::
      && t in rows' && rows[t].retries <= rows'[t].retries
      && (rows'[t].status == Pending ==> rows[t].status == Pending || rows[t].retries < rows'[t].retries)
  }

  lemma InvRows(s: State, s': State, lim: Limits)
    requires Inv(s, lim) && SameCalls(s, s') && RowsAdvance(s.rows, s'.rows)
    ensures Inv(s', lim)
  {
    forall c | c in s'.calls ensures CallOk(s'.calls[c], lim) {
      assert CallOk(s.calls[c], lim);
    }
    assert Open(s') == Open(s);
    forall t, r ensures |Holders(s', t, r)| <= lim.width {
      assert Holders(s', t, r) == Holders(s, t, r);
    }
  }

  /** A fresh call holds nothing. */
  lemma HoldersBegin(s: State, c: CallId, lim: Limits)
    requires FewHolders(s, lim) && Enabled(s, Begin(c), lim)
    ensures FewHolders(Apply(s, Begin(c), lim), lim)
  {
    var s' := Apply(s, Begin(c), lim);
    forall t, r ensures |Holders(s', t, r)| <= lim.width {
      assert Holders(s', t, r) == Holders(s, t, r);
    }
  }

  lemma ReadsBegin(s: State, c: CallId, lim: Limits)
    requires CallsOk(s, lim) && ReadsAreOld(s) && PendingUnclaimed(s) && Enabled(s, Begin(c), lim)
    ensures var s' := Apply(s, Begin(c), lim); CallsOk(s', lim) && ReadsAreOld(s') && PendingUnclaimed(s')
  {
    var s' := Apply(s, Begin(c), lim);
    forall d | d in s'.calls ensures CallOk(s'.calls[d], lim) {
      if d != c { assert CallOk(s.calls[d], lim); }
    }
  }

  lemma InvBegin(s: State, c: CallId, lim: Limits)
    requires Inv(s, lim) && Enabled(s, Begin(c), lim)
    ensures Inv(Apply(s, Begin(c), lim), lim)
  {
    assert Open(Apply(s, Begin(c), lim)) == Open(s) + {c};
    HoldersBegin(s, c, lim);
    ReadsBegin(s, c, lim);
  }

  /** What selecting reads off the rows: pending ones, with as many retries as they have. */
  lemma ReadsSelect(s: State, c: CallId, ids: set<Uuid>, lim: Limits)
    requires CallsOk(s, lim) && ReadsAreOld(s) && PendingUnclaimed(s) && Enabled(s, Select(c, ids), lim)
    ensures var s' := Apply(s, Select(c, ids), lim); CallsOk(s', lim) && ReadsAreOld(s') && PendingUnclaimed(s')
  {
    var s' := Apply(s, Select(c, ids), lim);
    assert CallOk(s.calls[c], lim);
    forall d | d in s'.calls ensures CallOk(s'.calls[d], lim) {
      if d != c { assert CallOk(s.calls[d], lim); }
    }
  }

  /** Pending with exactly these retries: every holder is still in flight. */
  lemma SelectedInFlight(s: State, c: CallId, ids: set<Uuid>, lim: Limits, t: Uuid)
    requires Inv(s, lim) && Enabled(s, Select(c, ids), lim) && t in ids
    ensures Holders(Apply(s, Select(c, ids), lim), t, s.rows[t].retries) <= Open(s)
  {
    var s' := Apply(s, Select(c, ids), lim);
    forall h | h in Holders(s', t, s.rows[t].retries) ensures h in Open(s) {
      if h != c { assert CallOk(s.calls[h], lim); }
    }
  }

  lemma InvSelect(s: State, c: CallId, ids: set<Uuid>, lim: Limits)
    requires Inv(s, lim) && Enabled(s, Select(c, ids), lim)
    ensures Inv(Apply(s, Select(c, ids), lim), lim)
  {
    var s' := Apply(s, Select(c, ids), lim);
    ReadsSelect(s, c, ids, lim);
    assert CallOk(s.calls[c], lim);
    assert Open(s') == Open(s);
    forall t, r ensures |Holders(s', t, r)| <= lim.width {
      if t in ids && s.rows[t].retries == r {
        SelectedInFlight(s, c, ids, lim, t);
        Subset(Holders(s', t, r), Open(s));
      } else {
        assert Holders(s', t, r) == Holders(s, t, r);
      }
    }
  }

  // Trying a task, or ending, makes nobody a holder.

  lemma CallClaim(s: State, step: Step, lim: Limits, d: CallId)
    requires d in s.calls && CallOk(s.calls[d], lim) && Enabled(s, step, lim) && (step.Claim? || step.End?)
    ensures CallOk(Apply(s, step, lim).calls[d], lim)
  {
  }

  lemma ReadsClaim(s: State, step: Step, lim: Limits)
    requires CallsOk(s, lim) && ReadsAreOld(s) && PendingUnclaimed(s) && Enabled(s, step, lim)
    requires step.Claim? || step.End?
    ensures var s' := Apply(s, step, lim); CallsOk(s', lim) && ReadsAreOld(s') && PendingUnclaimed(s')
  {
    var s' := Apply(s, step, lim);
    forall d | d in s'.calls ensures CallOk(s'.calls[d], lim) {
      CallClaim(s, step, lim, d);
    }
  }

  lemma HoldersClaim(s: State, step: Step, lim: Limits, t: Uuid, r: nat)
    requires CallsOk(s, lim) && Enabled(s, step, lim) && (step.Claim? || step.End?)
    ensures Holders(Apply(s, step, lim), t, r) <= Holders(s, t, r)
  {
    assert CallOk(s.calls[step.call], lim);
  }

  lemma OpenClaim(s: State, step: Step, lim: Limits)
    requires Enabled(s, step, lim) && (step.Claim? || step.End?)
    ensures Open(Apply(s, step, lim)) <= Open(s)
  {
  }

  lemma InvClaim(s: State, step: Step, lim: Limits)
    requires Inv(s, lim) && Enabled(s, step, lim) && (step.Claim? || step.End?)
    ensures Inv(Apply(s, step, lim), lim)
  {
    var s' := Apply(s, step, lim);
    ReadsClaim(s, step, lim);
    OpenClaim(s, step, lim);
    Subset(Open(s'), Open(s));
    forall u, r ensures |Holders(s', u, r)| <= lim.width {
      HoldersClaim(s, step, lim, u, r);
      Subset(Holders(s', u, r), Holders(s, u, r));
    }
  }

  lemma OthersAdvance(s: State, step: Step, lim: Limits)
    requires Enabled(s, step, lim) && !step.Begin? && !step.Select? && !step.Claim? && !step.End?
    ensures SameCalls(s, Apply(s, step, lim)) && RowsAdvance(s.rows, Apply(s, step, lim).rows)
  {
  }

  lemma InvStep(s: State, step: Step, lim: Limits)
    requires Inv(s, lim) && Enabled(s, step, lim)
    ensures Inv(Apply(s, step, lim), lim)
  {
    match step
    case Begin(c) => InvBegin(s, c, lim);
    case Select(c, ids) => InvSelect(s, c, ids, lim);
    case Claim(_, _, _) => InvClaim(s, step, lim);
    case End(_) => InvClaim(s, step, lim);
    case _ =>
      OthersAdvance(s, step, lim);
      InvRows(s, Apply(s, step, lim), lim);
  }

  lemma {:induction false} InvHolds(states: seq<State>, steps: seq<Step>, lim: Limits, i: nat)
    requires IsRun(states, steps, lim) && i < |states|
    ensures Inv(states[i], lim)
  {
    if i == 0 {
      forall t, r ensures |Holders(states[0], t, r)| <= lim.width { assert Holders(states[0], t, r) == {}; }
      assert Open(states[0]) == {};
    } else {
      InvHolds(states, steps, lim, i - 1);
      InvStep(states[i - 1], steps[i - 1], lim);
    }
  }

  // ----- How often a task is handed out -----

  predicate HandsOut(step: Step, t: Uuid) { step.Claim? && step.won && step.task == t }

  function Handouts(steps: seq<Step>, t: Uuid): nat {
    if steps == [] then 0
    else Handouts(steps[..|steps| - 1], t) + if HandsOut(steps[|steps| - 1], t) then 1 else 0
  }

  function Claimers(s: State, t: Uuid): set<CallId> { set c | c in s.calls && t in s.calls[c].claimed }

  lemma {:induction false} HandoutsAreClaimers(states: seq<State>, steps: seq<Step>, lim: Limits, t: Uuid)
    requires IsRun(states, steps, lim)
    ensures Handouts(steps, t) == |Claimers(states[|steps|], t)|
    decreases |steps|
  {
    var n := |steps|;
    if n == 0 {
      assert Claimers(states[0], t) == {};
    } else {
      HandoutsAreClaimers(states[..n], steps[..n - 1], lim, t);
      InvHolds(states, steps, lim, n - 1);
      assert states[..n][n - 1] == states[n - 1];
      ClaimersStep(states[n - 1], steps[n - 1], lim, t);
    }
  }

  lemma ClaimersClaim(s: State, step: Step, lim: Limits, t: Uuid)
    requires CallsOk(s, lim) && Enabled(s, step, lim) && step.Claim?
    ensures Claimers(Apply(s, step, lim), t) == Claimers(s, t) + if HandsOut(step, t) then {step.call} else {}
    ensures HandsOut(step, t) ==> step.call !in Claimers(s, t)
  {
    assert CallOk(s.calls[step.call], lim);
  }

  lemma ClaimersStep(s: State, step: Step, lim: Limits, t: Uuid)
    requires CallsOk(s, lim) && Enabled(s, step, lim)
    ensures |Claimers(Apply(s, step, lim), t)| == |Claimers(s, t)| + if HandsOut(step, t) then 1 else 0
  {
    if step.Claim? {
      ClaimersClaim(s, step, lim, t);
    } else {
      SameClaimers(s, step, lim, t);
    }
  }

  lemma SameClaimers(s: State, step: Step, lim: Limits, t: Uuid)
    requires Enabled(s, step, lim) && !step.Claim?
    ensures Claimers(Apply(s, step, lim), t) == Claimers(s, t)
  {
    var s' := Apply(s, step, lim);
    if !step.Begin? && !step.Select? && !step.End? { assert SameCalls(s, s'); }
  }

  lemma UnionSize(a: set<CallId>, b: set<CallId>)
    ensures |a + b| <= |a| + |b|
  {
    assert |a + b| == |a| + |b| - |a * b|;
  }

  /** Calls holding `t` from fewer than `r` retries. */
  function HoldersBelow(s: State, t: Uuid, r: nat): set<CallId> {
    if r == 0 then {} else HoldersBelow(s, t, r - 1) + Holders(s, t, r - 1)
  }

  lemma AddWidth(below: set<CallId>, here: set<CallId>, last: nat, r: nat, width: nat)
    requires r == last + 1 && |below| <= last * width && |here| <= width
    ensures |below + here| <= r * width
  {
    UnionSize(below, here);
    assert r * width == last * width + width;
  }

  lemma {:induction false} HoldersStep(s: State, t: Uuid, last: nat, r: nat, lim: Limits)
    requires FewHolders(s, lim) && r == last + 1
    ensures HoldersBelow(s, t, r) == HoldersBelow(s, t, last) + Holders(s, t, last)
    ensures |Holders(s, t, last)| <= lim.width
  {
  }

  lemma {:induction false} FewHoldersBelow(s: State, t: Uuid, r: nat, lim: Limits)
    requires FewHolders(s, lim)
    ensures |HoldersBelow(s, t, r)| <= r * lim.width
  {
    if r > 0 {
      var last := r - 1;
      FewHoldersBelow(s, t, last, lim);
      HoldersStep(s, t, last, r, lim);
      AddWidth(HoldersBelow(s, t, last), Holders(s, t, last), last, r, lim.width);
    }
  }

  lemma {:induction false} InHoldersBelow(s: State, t: Uuid, r: nat, c: CallId, read: nat)
    requires read < r && c in Holders(s, t, read)
    ensures c in HoldersBelow(s, t, r)
  {
    if read < r - 1 { InHoldersBelow(s, t, r - 1, c, read); }
  }

  /** With at most `width` claims in flight no run hands a task out more than width * maxRetries times. */
  lemma HandoutBound(states: seq<State>, steps: seq<Step>, lim: Limits, t: Uuid)
    requires IsRun(states, steps, lim)
    ensures Handouts(steps, t) <= lim.maxRetries * lim.width
  {
    var s := states[|steps|];
    HandoutsAreClaimers(states, steps, lim, t);
    InvHolds(states, steps, lim, |steps|);
    forall c | c in Claimers(s, t) ensures c in HoldersBelow(s, t, lim.maxRetries) {
      assert CallOk(s.calls[c], lim);
      InHoldersBelow(s, t, lim.maxRetries, c, s.calls[c].selected[t]);
    }
    Subset(Claimers(s, t), HoldersBelow(s, t, lim.maxRetries));
    FewHoldersBelow(s, t, lim.maxRetries, lim);
  }

  // ----- How a task comes to be completed -----

  /** The worker that has the task reports so, or a later task of the same file and target succeeded. */
  predicate Completes(s: State, step: Step, t: Uuid)
    requires t in s.rows
  {
    || (step.Finish? && step.task == t && step.status == Completed && WorksOn(s, step.call, t))
    || (step.Supersede? && s.rows[t].status == Failed && t != step.winner
        && s.rows[t].fileId == step.fileId && s.rows[t].target == step.target)
  }

  lemma CompletedStep(s: State, step: Step, lim: Limits, t: Uuid)
    requires Enabled(s, step, lim) && t in s.rows
    ensures var s' := Apply(s, step, lim);
      && t in s'.rows && s'.rows[t].fileId == s.rows[t].fileId && s'.rows[t].target == s.rows[t].target
      && (s'.rows[t].status == Completed && s.rows[t].status != Completed ==> Completes(s, step, t))
      && (s'.rows[t].status == Failed && s.rows[t].status != Failed ==>
            || (step.Exhaust? && s.rows[t].retries >= lim.maxRetries)
            || (step.Finish? && step.task == t && step.status == Failed))
  {
  }

  /** In no run does a task count as completed without a report of its worker or of a later success. */
  lemma {:induction false} CompletedIsReported(states: seq<State>, steps: seq<Step>, lim: Limits, t: Uuid, i: nat,
                                               j: nat) returns (k: nat)
    requires IsRun(states, steps, lim) && i <= j < |states| && t in states[i].rows
    requires states[i].rows[t].status != Completed && t in states[j].rows && states[j].rows[t].status == Completed
    ensures i <= k < j && t in states[k].rows && Completes(states[k], steps[k], t)
    decreases j
  {
    RowStays(states, steps, lim, t, i, j - 1);
    CompletedStep(states[j - 1], steps[j - 1], lim, t);
    if states[j - 1].rows[t].status == Completed {
      k := CompletedIsReported(states, steps, lim, t, i, j - 1);
    } else {
      k := j - 1;
    }
  }

  lemma {:induction false} RowStays(states: seq<State>, steps: seq<Step>, lim: Limits, t: Uuid, i: nat, j: nat)
    requires IsRun(states, steps, lim) && i <= j < |states| && t in states[i].rows
    ensures t in states[j].rows
    decreases j
  {
    if i < j {
      RowStays(states, steps, lim, t, i, j - 1);
      CompletedStep(states[j - 1], steps[j - 1], lim, t);
    }
  }

  // ----- Backing off -----

  predicate Requeues(step: Step, t: Uuid) { step.Requeue? && step.task == t }

  predicate Disturbs(step: Step, t: Uuid) {
    (step.Reclaim? && t in step.stale) || (step.Finish? && step.task == t && step.status == Failed)
  }

  function RequeueCount(steps: seq<Step>, t: Uuid): nat {
    if steps == [] then 0
    else RequeueCount(steps[..|steps| - 1], t) + if Requeues(steps[|steps| - 1], t) then 1 else 0
  }

  /** The delays that the requeues of `t` in this run schedule. */
  function Scheduled(states: seq<State>, steps: seq<Step>, t: Uuid): nat
    requires |states| == |steps| + 1
    requires forall i :: 0 <= i < |steps| ==> Requeues(steps[i], t) ==> t in states[i].rows
  {
    if steps == [] then 0
    else
      var n := |steps| - 1;
      var last := if Requeues(steps[n], t) then Delay(states[n].rows[t].retries) else 0;
      Scheduled(states[..|steps|], steps[..n], t) + last
  }

  function TotalDelay(n: nat): nat { if n == 0 then 0 else TotalDelay(n - 1) + Delay(n - 1) }

  lemma RequeueStep(s: State, step: Step, lim: Limits, t: Uuid)
    requires Enabled(s, step, lim) && !Disturbs(step, t) && t in s.rows
    ensures var s' := Apply(s, step, lim);
      t in s'.rows && s'.rows[t].retries == s.rows[t].retries + if Requeues(step, t) then 1 else 0
  {
  }

  lemma ScheduledSnoc(states: seq<State>, steps: seq<Step>, t: Uuid, n: nat)
    requires |states| == |steps| + 1 && |steps| == n + 1
    requires forall i :: 0 <= i < |steps| ==> Requeues(steps[i], t) ==> t in states[i].rows
    ensures
      var last := if Requeues(steps[n], t) then Delay(states[n].rows[t].retries) else 0;
      Scheduled(states, steps, t) == Scheduled(states[..|steps|], steps[..n], t) + last
    ensures RequeueCount(steps, t) == RequeueCount(steps[..n], t) + if Requeues(steps[n], t) then 1 else 0
  {
  }

  lemma {:induction false} RequeuesRaiseRetries(states: seq<State>, steps: seq<Step>, lim: Limits, t: Uuid)
    requires IsRun(states, steps, lim)
    requires t in states[0].rows && states[0].rows[t].retries == 0
    requires forall i :: 0 <= i < |steps| ==> !Disturbs(steps[i], t)
    ensures t in states[|steps|].rows && states[|steps|].rows[t].retries == RequeueCount(steps, t)
    ensures Scheduled(states, steps, t) == TotalDelay(RequeueCount(steps, t))
    decreases |steps|
  {
    if |steps| > 0 {
      var n := |steps| - 1;
      RequeuesRaiseRetries(states[..n + 1], steps[..n], lim, t);
      assert states[..n + 1][n] == states[n] && |steps[..n]| == n;
      RequeueStep(states[n], steps[n], lim, t);
      assert states[n + 1] == Apply(states[n], steps[n], lim);
      ScheduledSnoc(states, steps, t, n);
    }
  }

  lemma {:induction false} Power2Grows(n: nat)
    requires n >= 9
    ensures Power2(n) >= 512
  {
    if n > 9 {
      Power2Grows(n - 1);
    } else {
      assert Power2(3) == 8 && Power2(6) == 8 * Power2(3);
    }
  }

  lemma {:induction false} TotalDelayClosed(n: nat)
    ensures TotalDelay(n) == if n <= 9 then Power2(n) - 1 else 511 + 300 * (n - 9)
  {
    if n > 0 {
      TotalDelayClosed(n - 1);
      if n <= 9 {
        PowerBelowCap(n - 1);
      } else {
        Power2Grows(n - 1);
        assert Power2(3) == 8 && Power2(6) == 64 && Power2(9) == 512;
      }
    }
  }

  lemma PowerBelowCap(n: nat)
    requires n <= 8
    ensures Power2(n) <= 256
  {
    assert Power2(4) == 16 && Power2(8) == 256;
    if n < 8 {
      PowerMonotone(n, 8);
    }
  }

  lemma {:induction false} PowerMonotone(m: nat, n: nat)
    requires m <= n
    ensures Power2(m) <= Power2(n)
  {
    if m < n { PowerMonotone(m, n - 1); }
  }

  /** From zero retries, with nothing but requeues raising them, the waits scheduled by n requeues
      add up to 2^n - 1 seconds, and grow by five minutes each from the tenth on. */
  lemma {:induction false} BackoffTotal(states: seq<State>, steps: seq<Step>, lim: Limits, t: Uuid)
    requires IsRun(states, steps, lim)
    requires t in states[0].rows && states[0].rows[t].retries == 0
    requires forall i :: 0 <= i < |steps| ==> !Disturbs(steps[i], t)
    ensures var n := RequeueCount(steps, t);
      Scheduled(states, steps, t) == if n <= 9 then Power2(n) - 1 else 511 + 300 * (n - 9)
  {
    RequeuesRaiseRetries(states, steps, lim, t);
    TotalDelayClosed(RequeueCount(steps, t));
  }

  lemma {:induction false} RetryAfterKept(states: seq<State>, steps: seq<Step>, lim: Limits, t: Uuid, i: nat, j: nat)
    requires IsRun(states, steps, lim) && i <= j < |states| && t in states[i].rows
    requires forall k :: i <= k < j ==> !Requeues(steps[k], t)
    ensures t in states[j].rows && states[j].rows[t].retryAfter == states[i].rows[t].retryAfter
    ensures states[i].now <= states[j].now
  {
    if i < j { RetryAfterKept(states, steps, lim, t, i, j - 1); }
  }

  /** No claim selects a requeued task before its delay is over. */
  lemma NotBeforeRetryAfter(states: seq<State>, steps: seq<Step>, lim: Limits, t: Uuid, i: nat, j: nat)
    requires IsRun(states, steps, lim) && i < j < |steps|
    requires Requeues(steps[i], t) && steps[j].Select? && t in steps[j].ids
    requires forall k :: i < k < j ==> !Requeues(steps[k], t)
    ensures states[i].now + Delay(states[i].rows[t].retries) <= states[j].now
  {
    RetryAfterKept(states, steps, lim, t, i + 1, j);
  }
}
