/**
 When two workers can be on one sync task: the row selected twice before the first claim, taken for
 stale and selected again while the first worker still has it, or requeued by one of two that have it.
 */
module SyncQueueSharing {
  import opened Wrappers
  import opened Tables
  import opened SyncQueue
  import opened SyncQueueRuns

  // ----- When two calls can share a task -----

  predicate NotPending(states: seq<State>, t: Uuid, i: nat, j: nat)
    requires j < |states|
  {
    forall k :: i <= k <= j ==> t in states[k].rows && states[k].rows[t].status != Pending
  }

  /** A task in a call's list was pending when that call selected it. */
  lemma {:induction false} SelectedEarlier(states: seq<State>, steps: seq<Step>, lim: Limits, j: nat, b: CallId,
                                           t: Uuid)
    returns (m: nat)
    requires IsRun(states, steps, lim) && j < |states|
    requires b in states[j].calls && t in states[j].calls[b].todo
    ensures m < j && steps[m].Select? && steps[m].call == b && t in steps[m].ids
    ensures t in states[m].rows && states[m].rows[t].status == Pending
    ensures forall k :: m < k <= j ==> b in states[k].calls && t in states[k].calls[b].todo
  {
    var s, step := states[j - 1], steps[j - 1];
    if step.Select? && step.call == b {
      m := j - 1;
    } else {
      m := SelectedEarlier(states, steps, lim, j - 1, b, t);
    }
  }

  /** If `b` claims `t` after `a` did, and `t` has not been pending in between, then `b` selected it
      before `a`'s claim committed. */
  lemma ClaimsOverlap(states: seq<State>, steps: seq<Step>, lim: Limits, i: nat, j: nat, a: CallId, b: CallId,
                      t: Uuid)
    returns (m: nat)
    requires IsRun(states, steps, lim) && i < j < |steps|
    requires steps[i] == Claim(a, t, true) && steps[j] == Claim(b, t, true)
    requires NotPending(states, t, i + 1, j)
    ensures m < i && steps[m].Select? && steps[m].call == b && t in steps[m].ids
    ensures a != b
  {
    m := SelectedEarlier(states, steps, lim, j, b, t);
    assert m != i && states[m].rows[t].status == Pending;
    assert m <= i;
    assert t in states[i + 1].calls[b].todo;
  }

  predicate Continues(states: seq<State>, steps: seq<Step>, lim: Limits, more: seq<State>, moreSteps: seq<Step>) {
    && IsRun(states, steps, lim) && IsRun(more, moreSteps, lim)
    && |states| <= |more| && more[..|states|] == states && moreSteps[..|steps|] == steps
  }

  /** A longer run that ends with `b` claiming `t`, pending at no point after `states`. */
  predicate SharedLater(states: seq<State>, steps: seq<Step>, lim: Limits, b: CallId, t: Uuid, more: seq<State>,
                        moreSteps: seq<Step>) {
    && Continues(states, steps, lim, more, moreSteps) && |moreSteps| > |steps|
    && moreSteps[|moreSteps| - 1] == Claim(b, t, true)
    && NotPending(more, t, |steps|, |moreSteps| - 1)
  }

  /** From where `a` has just claimed `t`, call `b` may still claim it before it is pending again if
      and only if `b` had already selected it. */
  lemma SharedIffSelected(states: seq<State>, steps: seq<Step>, lim: Limits, a: CallId, b: CallId, t: Uuid)
    requires IsRun(states, steps, lim) && steps != [] && steps[|steps| - 1] == Claim(a, t, true)
    ensures (exists more: seq<State>, moreSteps: seq<Step> :: SharedLater(states, steps, lim, b, t, more, moreSteps))
      <==> b in states[|steps|].calls && t in states[|steps|].calls[b].todo
  {
    var n := |steps|;
    var s := states[n];
    if b in s.calls && t in s.calls[b].todo {
      var more := ContinueRun(states, steps, lim, [Claim(b, t, true)]);
      assert SharedLater(states, steps, lim, b, t, more, steps + [Claim(b, t, true)]);
    }
    forall more: seq<State>, moreSteps: seq<Step> | SharedLater(states, steps, lim, b, t, more, moreSteps)
      ensures b in s.calls && t in s.calls[b].todo
    {
      var j := |moreSteps| - 1;
      assert moreSteps[n - 1] == steps[n - 1] && more[n] == s;
      var m := SelectedEarlier(more, moreSteps, lim, j, b, t);
      assert more[m].rows[t].status == Pending;
      assert m < n;
    }
  }

  // ----- Two workers on one task -----

  /** The worker of `c` has `t`, or is about to be handed it. */
  predicate Has(s: State, c: CallId, t: Uuid) { c in s.calls && t in s.calls[c].working }

  predicate Listed(s: State, c: CallId, t: Uuid) { c in s.calls && t in s.calls[c].todo }

  predicate ReclaimedIn(steps: seq<Step>, t: Uuid, i: nat, j: nat)
    requires j <= |steps|
  {
    exists k :: i <= k < j && steps[k].Reclaim? && t in steps[k].stale
  }

  predicate RequeuedIn(steps: seq<Step>, t: Uuid, i: nat, j: nat)
    requires j <= |steps|
  {
    exists k :: i <= k < j && Requeues(steps[k], t)
  }

  /** Requeued by the worker of some other call than `a`, which had it as well. */
  predicate RequeuedByOther(states: seq<State>, steps: seq<Step>, a: CallId, t: Uuid, i: nat, j: nat)
    requires j <= |steps| < |states|
  {
    exists k :: i <= k < j && Requeues(steps[k], t) && steps[k].call != a && Has(states[k], steps[k].call, t)
  }

  lemma RowAdvances(s: State, step: Step, lim: Limits, t: Uuid)
    requires Enabled(s, step, lim) && t in s.rows
    ensures var s' := Apply(s, step, lim);
      && t in s'.rows && s.rows[t].retries <= s'.rows[t].retries
      && (s'.rows[t].status == Pending && s.rows[t].status != Pending ==>
            && s.rows[t].retries < s'.rows[t].retries
            && (Requeues(step, t) || (step.Reclaim? && t in step.stale)))
  {
  }

  /** A row comes back to pending only by being requeued or taken for stale, at the price of a retry. */
  lemma {:induction false} PendingAgain(states: seq<State>, steps: seq<Step>, lim: Limits, t: Uuid, i: nat, m: nat)
    requires IsRun(states, steps, lim) && i <= m < |states|
    requires t in states[i].rows && states[i].rows[t].status != Pending
    ensures t in states[m].rows && states[i].rows[t].retries <= states[m].rows[t].retries
    ensures states[m].rows[t].status == Pending ==> ReclaimedIn(steps, t, i, m) || RequeuedIn(steps, t, i, m)
    ensures states[m].rows[t].status == Pending ==> states[i].rows[t].retries < states[m].rows[t].retries
    decreases m
  {
    if i < m {
      PendingAgain(states, steps, lim, t, i, m - 1);
      RowAdvances(states[m - 1], steps[m - 1], lim, t);
    }
  }

  /** If `b` claims `t` after `a`, then `b` had it in its list when `a` claimed it, or it was taken for
      stale or requeued in between. */
  lemma HandedOutAgain(states: seq<State>, steps: seq<Step>, lim: Limits, i: nat, j: nat, a: CallId, b: CallId,
                       t: Uuid)
    requires IsRun(states, steps, lim) && i < j < |steps|
    requires steps[i] == Claim(a, t, true) && steps[j] == Claim(b, t, true)
    ensures a != b
    ensures Listed(states[i + 1], b, t) || ReclaimedIn(steps, t, i + 1, j) || RequeuedIn(steps, t, i + 1, j)
  {
    var m := SelectedEarlier(states, steps, lim, j, b, t);
    assert m != i;
    if i < m {
      PendingAgain(states, steps, lim, t, i + 1, m);
      InvHolds(states, steps, lim, i);
      assert CallOk(states[i].calls[a], lim) && t in states[i].calls[a].selected;
      MaySelectEarlier(states, steps, lim, b, i, m);
    } else {
      assert t in states[i + 1].calls[b].todo;
    }
  }

  lemma ClaimedStep(s: State, step: Step, lim: Limits, a: CallId, t: Uuid)
    requires CallsOk(s, lim) && Enabled(s, step, lim) && a in s.calls && t in s.calls[a].claimed
    ensures var s' := Apply(s, step, lim);
      a in s'.calls && t in s'.calls[a].claimed && (Has(s', a, t) ==> Has(s, a, t))
  {
    assert CallOk(s.calls[a], lim);
  }

  /** A call that is through with `t` never has it again. */
  lemma {:induction false} NeverAgain(states: seq<State>, steps: seq<Step>, lim: Limits, a: CallId, t: Uuid, i: nat,
                                      j: nat)
    requires IsRun(states, steps, lim) && i <= j < |states| && a in states[i].calls && t in states[i].calls[a].claimed
    ensures a in states[j].calls && t in states[j].calls[a].claimed && (Has(states[j], a, t) ==> Has(states[i], a, t))
    decreases j
  {
    if i < j {
      NeverAgain(states, steps, lim, a, t, i, j - 1);
      InvHolds(states, steps, lim, j - 1);
      ClaimedStep(states[j - 1], steps[j - 1], lim, a, t);
    }
  }

  /** What a call still has its worker has not requeued. */
  lemma NotRequeuedBy(states: seq<State>, steps: seq<Step>, lim: Limits, a: CallId, t: Uuid, i: nat, k: nat, j: nat)
    requires IsRun(states, steps, lim) && i < k < j < |states| && steps[i] == Claim(a, t, true)
    requires Has(states[j], a, t) && Requeues(steps[k], t)
    ensures steps[k].call != a && Has(states[k], steps[k].call, t)
  {
    NeverAgain(states, steps, lim, a, t, i + 1, k);
    if steps[k].call == a { NeverAgain(states, steps, lim, a, t, k + 1, j); }
  }

  /** If `b` claims `t` while the worker of `a` has it, then `b` had it in its list when `a` claimed it,
      or it was taken for stale in between, or requeued by a third worker that had it too. */
  lemma SharedInThreeWays(states: seq<State>, steps: seq<Step>, lim: Limits, i: nat, j: nat, a: CallId, b: CallId,
                          t: Uuid)
    requires IsRun(states, steps, lim) && i < j < |steps|
    requires steps[i] == Claim(a, t, true) && steps[j] == Claim(b, t, true) && Has(states[j], a, t)
    ensures a != b
    ensures
      || Listed(states[i + 1], b, t)
      || ReclaimedIn(steps, t, i + 1, j)
      || RequeuedByOther(states, steps, a, t, i + 1, j)
  {
    HandedOutAgain(states, steps, lim, i, j, a, b, t);
    if RequeuedIn(steps, t, i + 1, j) {
      var k :| i + 1 <= k < j && Requeues(steps[k], t);
      NotRequeuedBy(states, steps, lim, a, t, i, k, j);
    }
  }

  /** `b` has not selected yet: still to begin, or begun without a list. */
  predicate MaySelect(s: State, b: CallId) { b in s.calls ==> s.calls[b].open && !s.calls[b].listed }

  lemma {:induction false} MaySelectEarlier(states: seq<State>, steps: seq<Step>, lim: Limits, b: CallId, i: nat,
                                            m: nat)
    requires IsRun(states, steps, lim) && i <= m < |states|
    requires b in states[m].calls && MaySelect(states[m], b)
    ensures MaySelect(states[i], b)
    decreases m
  {
    if i < m {
      assert states[m] == Apply(states[m - 1], steps[m - 1], lim);
      if b in states[m - 1].calls {
        MaySelectEarlier(states, steps, lim, b, i, m - 1);
      } else {
        NotYetBegun(states, steps, lim, b, i, m - 1);
      }
    }
  }

  lemma {:induction false} NotYetBegun(states: seq<State>, steps: seq<Step>, lim: Limits, b: CallId, i: nat, m: nat)
    requires IsRun(states, steps, lim) && i <= m < |states| && b !in states[m].calls
    ensures b !in states[i].calls
    decreases m
  {
    if i < m { NotYetBegun(states, steps, lim, b, i, m - 1); }
  }

  /** A longer run that ends with `b` claiming `t`. */
  predicate ClaimedLater(states: seq<State>, steps: seq<Step>, lim: Limits, b: CallId, t: Uuid, more: seq<State>,
                         moreSteps: seq<Step>) {
    && Continues(states, steps, lim, more, moreSteps) && |moreSteps| > |steps|
    && moreSteps[|moreSteps| - 1] == Claim(b, t, true)
  }

  /** Such a run in which the worker of `a` still has `t` at the end. */
  predicate SharedWith(states: seq<State>, steps: seq<Step>, lim: Limits, a: CallId, b: CallId, t: Uuid,
                       more: seq<State>, moreSteps: seq<Step>) {
    ClaimedLater(states, steps, lim, b, t, more, moreSteps) && Has(more[|moreSteps|], a, t)
  }

  /** `b` has `t` in its list; or it may still select, and the row has a retry left to lose. */
  predicate MayShare(s: State, lim: Limits, b: CallId, t: Uuid)
    requires t in s.rows
  {
    Listed(s, b, t) || (MaySelect(s, b) && s.rows[t].retries + 1 < lim.maxRetries)
  }

  lemma ClaimingNeeds(states: seq<State>, steps: seq<Step>, lim: Limits, a: CallId, b: CallId, t: Uuid,
                      more: seq<State>, moreSteps: seq<Step>)
    requires IsRun(states, steps, lim) && steps != [] && steps[|steps| - 1] == Claim(a, t, true)
    requires ClaimedLater(states, steps, lim, b, t, more, moreSteps)
    ensures t in states[|steps|].rows && MayShare(states[|steps|], lim, b, t)
  {
    var n, j := |steps|, |moreSteps| - 1;
    assert moreSteps[n - 1] == steps[n - 1] && more[n] == states[n] && more[n - 1] == states[n - 1];
    var m := SelectedEarlier(more, moreSteps, lim, j, b, t);
    assert m != n - 1;
    if n <= m {
      PendingAgain(more, moreSteps, lim, t, n, m);
      MaySelectEarlier(more, moreSteps, lim, b, n, m);
    }
  }

  // ----- Continuing a run -----

  predicate Leads(s: State, path: seq<Step>, lim: Limits)
    decreases |path|
  {
    path != [] ==> Enabled(s, path[0], lim) && Leads(Apply(s, path[0], lim), path[1..], lim)
  }

  lemma {:induction false} ContinueRun(states: seq<State>, steps: seq<Step>, lim: Limits, path: seq<Step>)
    returns (more: seq<State>)
    requires IsRun(states, steps, lim) && Leads(states[|steps|], path, lim)
    ensures Continues(states, steps, lim, more, steps + path)
    decreases |path|
  {
    if path == [] {
      more := states;
      assert steps + path == steps;
    } else {
      var s' := Apply(states[|steps|], path[0], lim);
      OneStepMore(states, steps, lim, path[0]);
      more := ContinueRun(states + [s'], steps + [path[0]], lim, path[1..]);
      assert steps + path == (steps + [path[0]]) + path[1..];
      assert more[..|states|] == more[..|states| + 1][..|states|] == (states + [s'])[..|states|] == states;
    }
  }

  lemma {:induction false} OneStepMore(states: seq<State>, steps: seq<Step>, lim: Limits, step: Step)
    requires IsRun(states, steps, lim) && Enabled(states[|steps|], step, lim)
    ensures IsRun(states + [Apply(states[|steps|], step, lim)], steps + [step], lim)
  {
    var more, moreSteps := states + [Apply(states[|steps|], step, lim)], steps + [step];
    forall i | 0 <= i < |moreSteps|
      ensures Enabled(more[i], moreSteps[i], lim) && more[i + 1] == Apply(more[i], moreSteps[i], lim)
    {
    }
  }

  /** Reclaim, wait, select and claim: what `b` does with a row that `a`'s worker still has. */
  function ReclaimPath(t: Uuid, b: CallId, time: Time): seq<Step> {
    [Reclaim({t}), Tick(time), Select(b, {t}), Claim(b, t, true)]
  }

  function Ready(s: State, t: Uuid): Time
    requires t in s.rows
  {
    if s.rows[t].retryAfter.Some? && s.rows[t].retryAfter.value > s.now then s.rows[t].retryAfter.value else s.now
  }

  lemma ReclaimLeads(s: State, lim: Limits, b: CallId, t: Uuid)
    requires t in s.rows && s.rows[t].status == InProgress && s.rows[t].retries + 1 < lim.maxRetries
    requires b in s.calls && MaySelect(s, b)
    ensures Leads(s, ReclaimPath(t, b, Ready(s, t)), lim)
  {
    var path := ReclaimPath(t, b, Ready(s, t));
    var s1 := Apply(s, path[0], lim);
    var s2 := Apply(s1, path[1], lim);
    assert Enabled(s2, path[2], lim);
    var s3 := Apply(s2, path[2], lim);
    assert Enabled(s3, path[3], lim);
    assert path[3..][1..] == [] && path[2..] == [path[2]] + path[3..];
    assert Leads(s3, path[3..], lim);
    assert path[2..][1..] == path[3..] && path[1..][1..] == path[2..];
    assert Leads(s2, path[2..], lim);
    assert Leads(s1, path[1..], lim);
  }

  lemma BeginLeads(s: State, lim: Limits, a: CallId, b: CallId, t: Uuid)
    requires t in s.rows && s.rows[t].status == InProgress && s.rows[t].retries + 1 < lim.maxRetries
    requires b !in s.calls && a in s.calls && s.calls[a].open && |Open(s)| <= lim.width
    ensures Leads(s, [End(a), Begin(b)] + ReclaimPath(t, b, Ready(s, t)), lim)
  {
    var path := ReclaimPath(t, b, Ready(s, t));
    var s1 := Apply(s, End(a), lim);
    assert Open(s1) == Open(s) - {a};
    var s2 := Apply(s1, Begin(b), lim);
    ReclaimLeads(s2, lim, b, t);
    var all := [End(a), Begin(b)] + path;
    assert all[1..] == [Begin(b)] + path && all[1..][1..] == path;
    assert Leads(s1, all[1..], lim);
  }

  /** The worker of `c` gives `t` up, whether it says what became of it or not. */
  predicate Releases(step: Step, c: CallId, t: Uuid) {
    (step.Requeue? || step.Finish? || step.Abandon?) && step.call == c && step.task == t
  }

  lemma {:induction false} KeepsWorking(states: seq<State>, steps: seq<Step>, lim: Limits, a: CallId, t: Uuid, i: nat,
                                        j: nat)
    requires IsRun(states, steps, lim) && i <= j < |states| && Has(states[i], a, t)
    requires forall k :: i <= k < j ==> !Releases(steps[k], a, t)
    ensures Has(states[j], a, t)
    decreases j
  {
    if i < j {
      KeepsWorking(states, steps, lim, a, t, i, j - 1);
      WorkingStep(states[j - 1], steps[j - 1], lim, a, t);
    }
  }

  lemma WorkingStep(s: State, step: Step, lim: Limits, a: CallId, t: Uuid)
    requires Enabled(s, step, lim) && Has(s, a, t) && !Releases(step, a, t)
    ensures Has(Apply(s, step, lim), a, t)
  {
  }

  /** From where `a` has just claimed `t`, call `b` may come to claim it at all if and only if `b` has it
      in its list, or has yet to select and the row can lose a retry; and then it may do so while the
      worker of `a` has it. */
  lemma {:induction false} SharedIffMayShare(states: seq<State>, steps: seq<Step>, lim: Limits, a: CallId, b: CallId,
                                             t: Uuid)
    requires IsRun(states, steps, lim) && steps != [] && steps[|steps| - 1] == Claim(a, t, true)
    ensures t in states[|steps|].rows
    ensures (exists more: seq<State>, moreSteps: seq<Step> ::
        ClaimedLater(states, steps, lim, b, t, more, moreSteps))
      <==> MayShare(states[|steps|], lim, b, t)
    ensures (exists more: seq<State>, moreSteps: seq<Step> ::
        SharedWith(states, steps, lim, a, b, t, more, moreSteps))
      <==> MayShare(states[|steps|], lim, b, t)
  {
    var n := |steps|;
    var s := states[n];
    assert s == Apply(states[n - 1], steps[n - 1], lim);
    if MayShare(s, lim, b, t) {
      var more, moreSteps := SharingRun(states, steps, lim, a, b, t);
    }
    forall more: seq<State>, moreSteps: seq<Step> | ClaimedLater(states, steps, lim, b, t, more, moreSteps)
      ensures MayShare(s, lim, b, t)
    {
      ClaimingNeeds(states, steps, lim, a, b, t, more, moreSteps);
    }
  }

  lemma {:induction false} SharingRun(states: seq<State>, steps: seq<Step>, lim: Limits, a: CallId, b: CallId,
                                      t: Uuid)
    returns (more: seq<State>, moreSteps: seq<Step>)
    requires IsRun(states, steps, lim) && steps != [] && steps[|steps| - 1] == Claim(a, t, true)
    requires t in states[|steps|].rows && MayShare(states[|steps|], lim, b, t)
    ensures SharedWith(states, steps, lim, a, b, t, more, moreSteps)
  {
    HasClaimed(states, steps, lim, a, t);
    var path := SharingPath(states, steps, lim, a, b, t);
    more := ContinueRun(states, steps, lim, path);
    moreSteps := steps + path;
    StillHas(states, steps, lim, a, t, more, path);
    assert moreSteps[|moreSteps| - 1] == path[|path| - 1];
  }

  lemma {:induction false} StillHas(states: seq<State>, steps: seq<Step>, lim: Limits, a: CallId, t: Uuid,
                                    more: seq<State>, path: seq<Step>)
    requires Continues(states, steps, lim, more, steps + path) && Has(states[|steps|], a, t)
    requires forall k :: 0 <= k < |path| ==> !Releases(path[k], a, t)
    ensures Has(more[|steps + path|], a, t)
  {
    var n, all := |steps|, steps + path;
    assert more[n] == more[..|states|][n];
    forall k | n <= k < |all| ensures !Releases(all[k], a, t) {
      assert all[k] == path[k - n];
    }
    KeepsWorking(more, all, lim, a, t, n, |all|);
  }

  lemma {:induction false} HasClaimed(states: seq<State>, steps: seq<Step>, lim: Limits, a: CallId, t: Uuid)
    requires IsRun(states, steps, lim) && steps != [] && steps[|steps| - 1] == Claim(a, t, true)
    ensures Has(states[|steps|], a, t)
  {
    assert states[|steps|] == Apply(states[|steps| - 1], steps[|steps| - 1], lim);
  }

  lemma {:induction false} SharingPath(states: seq<State>, steps: seq<Step>, lim: Limits, a: CallId, b: CallId,
                                       t: Uuid)
    returns (path: seq<Step>)
    requires IsRun(states, steps, lim) && steps != [] && steps[|steps| - 1] == Claim(a, t, true)
    requires t in states[|steps|].rows && MayShare(states[|steps|], lim, b, t)
    ensures Leads(states[|steps|], path, lim) && path != [] && path[|path| - 1] == Claim(b, t, true)
    ensures forall k :: 0 <= k < |path| ==> !Releases(path[k], a, t)
  {
    var n := |steps|;
    var s := states[n];
    assert s == Apply(states[n - 1], steps[n - 1], lim);
    if Listed(s, b, t) {
      path := [Claim(b, t, true)];
      assert path[1..] == [];
    } else if b in s.calls {
      path := ReclaimPath(t, b, Ready(s, t));
      ReclaimLeads(s, lim, b, t);
    } else {
      ClaimerIsOpen(states, steps, lim, a, t);
      path := [End(a), Begin(b)] + ReclaimPath(t, b, Ready(s, t));
      BeginLeads(s, lim, a, b, t);
    }
  }

  lemma {:induction false} ClaimerIsOpen(states: seq<State>, steps: seq<Step>, lim: Limits, a: CallId, t: Uuid)
    requires IsRun(states, steps, lim) && steps != [] && steps[|steps| - 1] == Claim(a, t, true)
    ensures var s := states[|steps|]; a in s.calls && s.calls[a].open && |Open(s)| <= lim.width
  {
    var n := |steps|;
    InvHolds(states, steps, lim, n - 1);
    InvHolds(states, steps, lim, n);
    assert states[n] == Apply(states[n - 1], steps[n - 1], lim);
    assert CallOk(states[n - 1].calls[a], lim);
  }

  // ----- Three runs that do it -----

  predicate Next(s: State, step: Step, s': State, lim: Limits) { Enabled(s, step, lim) && s' == Apply(s, step, lim) }

  lemma BothBegin(lim: Limits, task: Task) returns (states: seq<State>, steps: seq<Step>)
    requires lim == Limits(2, 2)
    ensures IsRun(states, steps, lim) && steps == [Begin(0), Begin(1)]
    ensures
      var call := Call(true, false, map[], {}, {}, {});
      states[2] == State(map[7 := task], map[0 := call, 1 := call], 0)
  {
    var s0 := State(map[7 := task], map[], 0);
    assert Open(s0) == {};
    OneStepMore([s0], [], lim, Begin(0));
    var s1 := Apply(s0, Begin(0), lim);
    assert Open(s1) == {0};
    OneStepMore([s0] + [s1], [Begin(0)], lim, Begin(1));
    states, steps := [s0] + [s1] + [Apply(s1, Begin(1), lim)], [Begin(0), Begin(1)];
  }

  lemma SelectsOne(s: State, c: CallId, lim: Limits, task: Task) returns (s': State)
    requires lim == Limits(2, 2) && task == Task(1, 2, 3, Pending, 0, None, 0) && s.rows == map[7 := task] && s.now == 0
    requires c in s.calls && s.calls[c] == Call(true, false, map[], {}, {}, {})
    ensures Next(s, Select(c, {7}), s', lim)
    ensures s' == s.(calls := s.calls[c := Call(true, true, map[7 := 0], {7}, {}, {})])
  {
    s' := Apply(s, Select(c, {7}), lim);
    assert s'.calls[c].selected == map[7 := 0];
  }

  lemma BothSelect(lim: Limits, task: Task) returns (states: seq<State>, steps: seq<Step>)
    requires lim == Limits(2, 2) && task == Task(1, 2, 3, Pending, 0, None, 0)
    ensures IsRun(states, steps, lim) && steps == [Begin(0), Begin(1), Select(0, {7}), Select(1, {7})]
    ensures
      var call := Call(true, true, map[7 := 0], {7}, {}, {});
      states[4] == State(map[7 := task], map[0 := call, 1 := call], 0)
  {
    states, steps := BothBegin(lim, task);
    var s2 := states[2];
    var s3 := SelectsOne(s2, 0, lim, task);
    var s4 := SelectsOne(s3, 1, lim, task);
    OneStepMore(states, steps, lim, Select(0, {7}));
    states, steps := states + [s3], steps + [Select(0, {7})];
    OneStepMore(states, steps, lim, Select(1, {7}));
    states, steps := states + [s4], steps + [Select(1, {7})];
  }

  lemma OneClaims(lim: Limits) returns (states: seq<State>, steps: seq<Step>)
    requires lim == Limits(2, 2)
    ensures IsRun(states, steps, lim) && |steps| == 5 && steps[4] == Claim(0, 7, true)
    ensures states[5] == State(
      map[7 := Task(1, 2, 3, InProgress, 0, None, 0)],
      map[0 := Call(true, true, map[7 := 0], {}, {7}, {7}), 1 := Call(true, true, map[7 := 0], {7}, {}, {})], 0)
  {
    states, steps := BothSelect(lim, Task(1, 2, 3, Pending, 0, None, 0));
    OneStepMore(states, steps, lim, Claim(0, 7, true));
    states, steps := states + [Apply(states[4], Claim(0, 7, true), lim)], steps + [Claim(0, 7, true)];
  }

  /** The locks do not keep two workers off one task: both selected it, both claim it. */
  lemma TwoWorkersShareATask() returns (states: seq<State>, steps: seq<Step>)
    ensures IsRun(states, steps, Limits(2, 2)) && |steps| == 6
    ensures steps[4] == Claim(0, 7, true) && steps[5] == Claim(1, 7, true)
    ensures NotPending(states, 7, 5, 5) && Has(states[6], 0, 7) && Has(states[6], 1, 7)
    ensures states[6].rows == map[7 := Task(1, 2, 3, InProgress, 0, None, 0)]
    ensures states[6].now == 0 && states[6].calls.Keys == {0, 1} == Open(states[6])
  {
    var lim := Limits(2, 2);
    states, steps := OneClaims(lim);
    var s5 := states[5];
    OneStepMore(states, steps, lim, Claim(1, 7, true));
    states, steps := states + [Apply(s5, Claim(1, 7, true), lim)], steps + [Claim(1, 7, true)];
  }

  lemma FirstClaims(lim: Limits, task: Task) returns (states: seq<State>, steps: seq<Step>)
    requires lim == Limits(2, 2) && task == Task(1, 2, 3, Pending, 0, None, 0)
    ensures IsRun(states, steps, lim) && steps == [Begin(0), Select(0, {7}), Claim(0, 7, true)]
    ensures states[3].rows == map[7 := task.(status := InProgress)] && Open(states[3]) == {0} && Has(states[3], 0, 7)
    ensures forall k :: 0 <= k <= 3 ==> 1 !in states[k].calls
  {
    var s0 := State(map[7 := task], map[], 0);
    assert Open(s0) == {};
    var s1 := Apply(s0, Begin(0), lim);
    var s2 := Apply(s1, Select(0, {7}), lim);
    var s3 := Apply(s2, Claim(0, 7, true), lim);
    steps := [Begin(0), Select(0, {7}), Claim(0, 7, true)];
    states := [s0, s1, s2, s3];
    forall i | 0 <= i < 3 ensures Next(states[i], steps[i], states[i + 1], lim) {
    }
  }

  lemma SecondLeads(s: State, lim: Limits, path: seq<Step>)
    requires lim == Limits(2, 2) && Open(s) == {0} && 1 !in s.calls
    requires s.rows == map[7 := Task(1, 2, 3, InProgress, 0, None, 0)] && path == ReclaimPath(7, 1, s.now)
    ensures Leads(s, [Begin(1)] + path, lim)
  {
    var s1 := Apply(s, Begin(1), lim);
    ReclaimLeads(s1, lim, 1, 7);
    assert ([Begin(1)] + path)[1..] == path;
  }

  /** Nor does the stale reclaim wait for the worker: call 1 begins only after call 0's claim has
      committed, and both have the row, with nothing reported on it. */
  lemma ReclaimHandsOutTwice() returns (states: seq<State>, steps: seq<Step>)
    ensures IsRun(states, steps, Limits(2, 2)) && |steps| == 8
    ensures steps[2] == Claim(0, 7, true) && steps[7] == Claim(1, 7, true)
    ensures Has(states[8], 0, 7) && Has(states[8], 1, 7)
    ensures forall k :: 0 <= k <= 3 ==> 1 !in states[k].calls
  {
    var lim := Limits(2, 2);
    var before, claimed := FirstClaims(lim, Task(1, 2, 3, Pending, 0, None, 0));
    var path := [Begin(1)] + ReclaimPath(7, 1, before[3].now);
    SecondLeads(before[3], lim, ReclaimPath(7, 1, before[3].now));
    states := ContinueRun(before, claimed, lim, path);
    steps := claimed + path;
    assert forall k :: 0 <= k < 4 ==> states[k] == states[..4][k];
    KeepsWorking(states, steps, lim, 0, 7, 3, 8);
    HasClaimed(states, steps, lim, 1, 7);
  }

  lemma FirstRequeues(s1: State, lim: Limits) returns (s2: State)
    requires s1.now == 0 && s1.calls.Keys == {0, 1} && Open(s1) == {1} && Has(s1, 0, 7)
    requires s1.rows == map[7 := Task(1, 2, 3, InProgress, 0, None, 0)]
    ensures Next(s1, Requeue(0, 7), s2, lim) && s2.now == 0 && s2.calls.Keys == {0, 1} && Open(s2) == {1}
    ensures s2.rows == map[7 := Task(1, 2, 3, Pending, 1, Some(1), 0)]
  {
    assert 0 !in Open(s1);
    s2 := Apply(s1, Requeue(0, 7), lim);
    assert Power2(0) == 1;
    assert Open(s2) == {1};
  }

  lemma ThirdLeads(s: State, lim: Limits, path: seq<Step>)
    requires lim == Limits(2, 2) && s.now == 0 && s.calls.Keys == {0, 1} == Open(s) && Has(s, 0, 7) && Has(s, 1, 7)
    requires s.rows == map[7 := Task(1, 2, 3, InProgress, 0, None, 0)]
    requires path == [Begin(2), Tick(1), Select(2, {7}), Claim(2, 7, true)]
    ensures Leads(s, [End(0), Requeue(0, 7)] + path, lim)
  {
    var s1 := Apply(s, End(0), lim);
    assert Open(s1) == {1};
    var s2 := FirstRequeues(s1, lim);
    RequeuedLeads(s2, lim, path);
    var all := [End(0), Requeue(0, 7)] + path;
    assert all[1..] == [Requeue(0, 7)] + path && all[1..][1..] == path;
    assert Leads(s1, all[1..], lim);
  }

  lemma RequeuedLeads(s: State, lim: Limits, path: seq<Step>)
    requires lim == Limits(2, 2) && s.now == 0 && s.calls.Keys == {0, 1} && Open(s) == {1}
    requires s.rows == map[7 := Task(1, 2, 3, Pending, 1, Some(1), 0)]
    requires path == [Begin(2), Tick(1), Select(2, {7}), Claim(2, 7, true)]
    ensures Leads(s, path, lim)
  {
    var s1 := Apply(s, path[0], lim);
    var s2 := Apply(s1, path[1], lim);
    var s3 := Apply(s2, path[2], lim);
    assert Enabled(s3, path[3], lim);
    assert path[3..][1..] == [] && path[2..] == [path[2]] + path[3..];
    assert Leads(s3, path[3..], lim);
    assert path[2..][1..] == path[3..] && path[1..][1..] == path[2..];
    assert Leads(s2, path[2..], lim);
    assert Leads(s1, path[1..], lim);
  }

  function ThirdPath(): seq<Step> {
    [End(0), Requeue(0, 7)] + [Begin(2), Tick(1), Select(2, {7}), Claim(2, 7, true)]
  }

  lemma ThirdPathOk(k: nat)
    requires k < 6
    ensures |ThirdPath()| == 6 && !ThirdPath()[k].Reclaim? && !Releases(ThirdPath()[k], 1, 7)
  {
  }

  lemma ThirdContinues(both: seq<State>, claimed: seq<Step>, lim: Limits) returns (states: seq<State>)
    requires lim == Limits(2, 2) && IsRun(both, claimed, lim) && |claimed| == 6
    requires both[6].now == 0 && both[6].calls.Keys == {0, 1} == Open(both[6])
    requires Has(both[6], 0, 7) && Has(both[6], 1, 7)
    requires both[6].rows == map[7 := Task(1, 2, 3, InProgress, 0, None, 0)]
    ensures IsRun(states, claimed + ThirdPath(), lim) && states[6] == both[6]
  {
    ThirdLeads(both[6], lim, [Begin(2), Tick(1), Select(2, {7}), Claim(2, 7, true)]);
    states := ContinueRun(both, claimed, lim, ThirdPath());
    assert states[6] == states[..7][6];
  }

  /** Once two workers have a row, the requeue of one hands it to a third beside the other. */
  lemma {:induction false} RequeueHandsOutThird() returns (states: seq<State>, steps: seq<Step>)
    ensures IsRun(states, steps, Limits(2, 2)) && |steps| == 12
    ensures forall k :: 6 <= k < 12 ==> !steps[k].Reclaim?
    ensures steps[5] == Claim(1, 7, true) && steps[7] == Requeue(0, 7) && steps[11] == Claim(2, 7, true)
    ensures 2 !in states[6].calls && Has(states[12], 1, 7) && Has(states[12], 2, 7)
  {
    var lim := Limits(2, 2);
    var both, claimed := TwoWorkersShareATask();
    var path := ThirdPath();
    states := ThirdContinues(both, claimed, lim);
    steps := claimed + path;
    forall k | 6 <= k < 12 ensures !steps[k].Reclaim? && !Releases(steps[k], 1, 7) {
      assert steps[k] == path[k - 6];
      ThirdPathOk(k - 6);
    }
    KeepsWorking(states, steps, lim, 1, 7, 6, 12);
    HasClaimed(states, steps, lim, 2, 7);
  }
}
