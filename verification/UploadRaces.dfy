/**
 Any number of PATCHes at once on one upload session. Each reads the session, appends what it
 receives to the shared temp file as it arrives, and only then tries to advance the offset.
 */
module UploadRaces {
  import opened FileService
  import opened Sums

  datatype Phase = Writing | Won | Hashed | Lost | Aborted | Finalized

  /** base is the offset the PATCH read, body what it has appended so far. */
  datatype Patch = Patch(base: nat, body: seq<byte>, phase: Phase)

  /** closed once completed or terminated; hashed has what each finalizing PATCH has hashed. accepted is
      a history variable: the bodies of the PATCHes that advanced the offset, in order. */
  datatype State = State(
    file: seq<byte>, offset: nat, total: nat, closed: bool, patches: map<nat, Patch>,
    hashed: map<nat, seq<byte>>, accepted: seq<byte>)

  datatype Step =
    | Start(p: nat)
    | Append(p: nat, block: seq<byte>)
    | Abort(p: nat)                     // overran the length, lost the connection, or failed to write
    | Advance(p: nat)
    | Hash(p: nat)                      // finalizing: reads the temp file for the digest,
    | Store(p: nat, ok: bool)           // then again for the bytes
    | Terminate

  predicate In(s: State, p: nat, phase: Phase) { p in s.patches && s.patches[p].phase == phase }

  predicate Enabled(s: State, step: Step) {
    match step
    case Start(p) => p !in s.patches && !s.closed
    case Append(p, block) => In(s, p, Writing) && s.patches[p].base + |s.patches[p].body| + |block| <= s.total
    case Abort(p) => In(s, p, Writing)
    case Advance(p) => In(s, p, Writing)
    case Hash(p) => In(s, p, Won) && s.patches[p].base + |s.patches[p].body| >= s.total && !s.closed
    case Store(p, _) => In(s, p, Hashed) && !s.closed
    case Terminate => true
  }

  function With(s: State, p: nat, patch: Patch): State { s.(patches := s.patches[p := patch]) }

  function Apply(s: State, step: Step): State
    requires Enabled(s, step)
  {
    match step
    case Start(p) => With(s, p, Patch(s.offset, [], Writing))
    case Append(p, block) =>
      With(s.(file := s.file + block), p, s.patches[p].(body := s.patches[p].body + block))
    case Abort(p) => With(s, p, s.patches[p].(phase := Aborted))
    case Advance(p) =>
      var patch := s.patches[p];
      if s.offset == patch.base && !s.closed then
        With(s.(offset := patch.base + |patch.body|, accepted := s.accepted + patch.body), p, patch.(phase := Won))
      else With(s, p, patch.(phase := Lost))
    case Hash(p) => With(s.(hashed := s.hashed[p := s.file]), p, s.patches[p].(phase := Hashed))
    case Store(p, ok) => With(s.(closed := ok), p, s.patches[p].(phase := Finalized))
    case Terminate => s.(closed := true)
  }

  predicate Winner(patch: Patch) { patch.phase == Won || patch.phase == Hashed || patch.phase == Finalized }

  function WonBytes(patches: map<nat, Patch>): map<nat, nat> {
    map p | p in patches :: if Winner(patches[p]) then |patches[p].body| else 0
  }

  function StrayBytes(patches: map<nat, Patch>): map<nat, nat> {
    map p | p in patches :: if Winner(patches[p]) then 0 else |patches[p].body|
  }

  // ----- What every step keeps -----

  predicate PatchOk(s: State, patch: Patch) {
    match patch.phase
    case Writing =>
      && patch.base <= s.offset && patch.base + |patch.body| <= s.total
      && (patch.base == s.offset && |s.file| == s.offset + |patch.body| ==> s.file == s.accepted + patch.body)
    case Won => patch.base + |patch.body| <= s.offset
    case Hashed => s.total <= patch.base + |patch.body| <= s.offset
    case _ => true
  }

  ghost predicate Counted(s: State) {
    && s.offset <= s.total && |s.accepted| == s.offset == Total(WonBytes(s.patches))
    && |s.file| == s.offset + Total(StrayBytes(s.patches))
  }

  ghost predicate Inv(s: State) {
    && Counted(s)
    && (|s.file| == s.offset ==> s.file == s.accepted)
    && (forall p | p in s.patches :: PatchOk(s, s.patches[p]))
  }

  lemma CountsUpdated(patches: map<nat, Patch>, p: nat, patch: Patch)
    ensures var patches' := patches[p := patch];
      && Total(WonBytes(patches'))
        == Total(WonBytes(patches)) - (if p in patches && Winner(patches[p]) then |patches[p].body| else 0)
           + (if Winner(patch) then |patch.body| else 0)
      && Total(StrayBytes(patches'))
        == Total(StrayBytes(patches)) - (if p in patches && !Winner(patches[p]) then |patches[p].body| else 0)
           + (if Winner(patch) then 0 else |patch.body|)
  {
    var patches' := patches[p := patch];
    var won := if Winner(patch) then |patch.body| else 0;
    var stray := if Winner(patch) then 0 else |patch.body|;
    assert WonBytes(patches') == WonBytes(patches)[p := won];
    assert StrayBytes(patches') == StrayBytes(patches)[p := stray];
    TotalUpdated(WonBytes(patches), p, won);
    TotalUpdated(StrayBytes(patches), p, stray);
  }

  lemma StrayAtLeast(patches: map<nat, Patch>, p: nat)
    requires p in patches && !Winner(patches[p])
    ensures |patches[p].body| <= Total(StrayBytes(patches))
  {
    TotalAtLeast(StrayBytes(patches), p);
  }

  lemma StrayAtLeastTwo(patches: map<nat, Patch>, p: nat, q: nat)
    requires p in patches && q in patches && p != q && !Winner(patches[p]) && !Winner(patches[q])
    ensures |patches[p].body| + |patches[q].body| <= Total(StrayBytes(patches))
  {
    TotalAtLeastTwo(StrayBytes(patches), p, q);
  }

  lemma CountedStep(s: State, step: Step)
    requires Counted(s) && Enabled(s, step) && !step.Terminate?
    requires step.p in s.patches ==> PatchOk(s, s.patches[step.p])
    ensures Counted(Apply(s, step))
  {
    CountsUpdated(s.patches, step.p, Apply(s, step).patches[step.p]);
  }

  lemma AppendPatchOk(s: State, p: nat, block: seq<byte>, q: nat)
    requires Enabled(s, Append(p, block)) && Counted(s) && Counted(Apply(s, Append(p, block)))
    requires q in s.patches && PatchOk(s, s.patches[q]) && PatchOk(s, s.patches[p])
    ensures var s' := Apply(s, Append(p, block)); PatchOk(s', s'.patches[q])
  {
    var s' := Apply(s, Append(p, block));
    assert |block| == 0 ==> s.file + block == s.file;
    if q == p {
      assert s.accepted + s'.patches[p].body == s.accepted + s.patches[p].body + block;
    } else if s'.patches[q].phase == Writing {
      StrayAtLeastTwo(s'.patches, p, q);
    }
  }

  lemma AppendKeeps(s: State, p: nat, block: seq<byte>)
    requires Inv(s) && Enabled(s, Append(p, block))
    ensures Inv(Apply(s, Append(p, block)))
  {
    var s' := Apply(s, Append(p, block));
    CountedStep(s, Append(p, block));
    StrayAtLeast(s'.patches, p);
    assert |block| == 0 ==> s.file + block == s.file;
    forall q | q in s'.patches ensures PatchOk(s', s'.patches[q]) {
      assert PatchOk(s, s.patches[q]) && PatchOk(s, s.patches[p]);
      AppendPatchOk(s, p, block, q);
    }
  }

  lemma AdvanceKeeps(s: State, p: nat)
    requires Inv(s) && Enabled(s, Advance(p))
    ensures Inv(Apply(s, Advance(p)))
  {
    var s' := Apply(s, Advance(p));
    var patch := s.patches[p];
    CountedStep(s, Advance(p));
    assert PatchOk(s, patch);
    assert |patch.body| == 0 ==> s.accepted + patch.body == s.accepted;
    forall q | q in s'.patches ensures PatchOk(s', s'.patches[q]) {
      assert PatchOk(s, s.patches[q]);
    }
  }

  predicate Quiet(step: Step) { step.Start? || step.Abort? || step.Hash? || step.Store? }

  lemma QuietPatchOk(s: State, step: Step, q: nat)
    requires Enabled(s, step) && Quiet(step) && q in Apply(s, step).patches && s.offset <= s.total
    requires q in s.patches ==> PatchOk(s, s.patches[q])
    requires |s.file| == s.offset ==> s.file == s.accepted
    ensures PatchOk(Apply(s, step), Apply(s, step).patches[q])
  {
    if step.Start? { assert s.accepted + [] == s.accepted; }
  }

  lemma QuietKeeps(s: State, step: Step)
    requires Inv(s) && Enabled(s, step) && Quiet(step)
    ensures Inv(Apply(s, step))
  {
    var s' := Apply(s, step);
    CountedStep(s, step);
    forall q | q in s'.patches ensures PatchOk(s', s'.patches[q]) {
      QuietPatchOk(s, step, q);
    }
  }

  lemma InvStep(s: State, step: Step)
    requires Inv(s) && Enabled(s, step)
    ensures Inv(Apply(s, step)) && s.offset <= Apply(s, step).offset && Apply(s, step).total == s.total
  {
    if step.Terminate? { return; }
    if step.p in s.patches { assert PatchOk(s, s.patches[step.p]); }
    if step.Append? {
      AppendKeeps(s, step.p, step.block);
    } else if step.Advance? {
      AdvanceKeeps(s, step.p);
    } else {
      QuietKeeps(s, step);
    }
  }

  // ----- Whole runs -----

  predicate Fresh(s: State) {
    s.file == [] && s.offset == 0 && s.total > 0 && !s.closed && s.patches == map[] && s.hashed == map[]
      && s.accepted == []
  }

  predicate IsRun(states: seq<State>, steps: seq<Step>) {
    && |states| == |steps| + 1 && Fresh(states[0])
    && forall i :: 0 <= i < |steps| ==> Enabled(states[i], steps[i]) && states[i + 1] == Apply(states[i], steps[i])
  }

  lemma {:induction false} InvHolds(states: seq<State>, steps: seq<Step>, i: nat)
    requires IsRun(states, steps) && i < |states|
    ensures Inv(states[i]) && states[i].total == states[0].total
  {
    if i == 0 {
      assert WonBytes(map[]) == map[] && StrayBytes(map[]) == map[];
    } else {
      InvHolds(states, steps, i - 1);
      InvStep(states[i - 1], steps[i - 1]);
    }
  }

  lemma {:induction false} OffsetGrows(states: seq<State>, steps: seq<Step>, i: nat, j: nat)
    requires IsRun(states, steps) && i <= j < |states|
    ensures states[i].offset <= states[j].offset
    decreases j
  {
    if i < j {
      OffsetGrows(states, steps, i, j - 1);
      assert states[j] == Apply(states[j - 1], steps[j - 1]);
    }
  }

  /** In every run the offset only grows, stays within the declared length, is exactly the number of
      bytes of the PATCHes that advanced it, and the temp file is at least that long. */
  lemma OffsetCountsWonBytes(states: seq<State>, steps: seq<Step>, i: nat, j: nat)
    requires IsRun(states, steps) && i <= j < |states|
    ensures states[i].offset <= states[j].offset <= states[0].total
    ensures states[j].offset == Total(WonBytes(states[j].patches)) <= |states[j].file|
  {
    OffsetGrows(states, steps, i, j);
    InvHolds(states, steps, j);
  }

  /** Nobody but the winners has written anything. */
  predicate NoStrayBytes(s: State) {
    forall p | p in s.patches :: Winner(s.patches[p]) || s.patches[p].body == []
  }

  lemma FileIsAcceptedIff(s: State)
    requires Inv(s)
    ensures s.file == s.accepted <==> NoStrayBytes(s)
  {
    var stray := StrayBytes(s.patches);
    TotalZero(stray);
    assert (forall p | p in stray :: stray[p] == 0) <==> NoStrayBytes(s) by {
      if NoStrayBytes(s) {
        assert forall p | p in stray :: stray[p] == 0;
      } else {
        var p :| p in s.patches && !(Winner(s.patches[p]) || s.patches[p].body == []);
        assert stray[p] != 0;
      }
    }
  }

  /** The client sends pieces of one string, each from the offset that it names. */
  predicate Sends(s: State, text: seq<byte>) {
    forall p | p in s.patches :: s.patches[p].base <= |text| && s.patches[p].body <= text[s.patches[p].base..]
  }

  lemma SendsBefore(s: State, step: Step, text: seq<byte>)
    requires Enabled(s, step) && Sends(Apply(s, step), text)
    ensures Sends(s, text)
  {
    var s' := Apply(s, step);
    forall p | p in s.patches ensures s.patches[p].base <= |text| && s.patches[p].body <= text[s.patches[p].base..] {
      assert s'.patches[p].body <= text[s'.patches[p].base..];
      assert s.patches[p].body <= s'.patches[p].body;
    }
  }

  lemma AcceptedStep(s: State, step: Step, text: seq<byte>)
    requires Enabled(s, step) && Sends(s, text) && s.offset <= |text| && s.accepted == text[..s.offset]
    ensures var s' := Apply(s, step); s'.offset <= |text| && s'.accepted == text[..s'.offset]
  {
    if step.Advance? {
      var patch := s.patches[step.p];
      var next := patch.base + |patch.body|;
      assert patch.body <= text[patch.base..];
      assert patch.body == text[patch.base..next];
      assert text[..patch.base] + text[patch.base..next] == text[..next];
    }
  }

  lemma {:induction false} AcceptedIsPrefix(states: seq<State>, steps: seq<Step>, i: nat, text: seq<byte>)
    requires IsRun(states, steps) && i < |states| && |text| == states[0].total && Sends(states[i], text)
    ensures states[i].offset <= |text| && states[i].accepted == text[..states[i].offset]
  {
    InvHolds(states, steps, i);
    if i > 0 {
      var s, step := states[i - 1], steps[i - 1];
      SendsBefore(s, step, text);
      AcceptedIsPrefix(states, steps, i - 1, text);
      AcceptedStep(s, step, text);
    }
  }

  /** Finalizing, its hashing as well as its storing, happens at exactly the declared length, and what
      it then finds in the temp file is the client's string if and only if no PATCH that failed to
      advance the offset, or is still under way, has written a byte. */
  lemma FinalizeSeesTextIff(states: seq<State>, steps: seq<Step>, i: nat, text: seq<byte>)
    requires IsRun(states, steps) && i < |steps| && (steps[i].Hash? || steps[i].Store?)
    requires |text| == states[0].total && Sends(states[i], text)
    ensures states[i].offset == states[i].total == states[0].total
    ensures states[i].file == text <==> NoStrayBytes(states[i])
  {
    InvHolds(states, steps, i);
    assert PatchOk(states[i], states[i].patches[steps[i].p]);
    AcceptedIsPrefix(states, steps, i, text);
    FileIsAcceptedIff(states[i]);
    assert text[..|text|] == text;
  }

  // ----- Between hashing and storing -----

  /** Nothing is written from step `i` up to `k`. */
  predicate QuietFrom(steps: seq<Step>, i: nat, k: nat)
    requires k <= |steps|
  {
    forall m :: i <= m < k && steps[m].Append? ==> steps[m].block == []
  }

  lemma {:induction false} FileGrows(states: seq<State>, steps: seq<Step>, i: nat, k: nat)
    requires IsRun(states, steps) && i <= k < |states|
    ensures states[i].file <= states[k].file
    ensures states[i].file == states[k].file <==> QuietFrom(steps, i, k)
    decreases k
  {
    if i < k {
      FileGrows(states, steps, i, k - 1);
      assert states[k] == Apply(states[k - 1], steps[k - 1]);
      if steps[k - 1].Append? { assert steps[k - 1].block == [] ==> states[k].file == states[k - 1].file; }
    }
  }

  /** A PATCH that has hashed hashed what it has recorded, and just once. */
  lemma {:induction false} HashedAt(states: seq<State>, steps: seq<Step>, k: nat, p: nat) returns (i: nat)
    requires IsRun(states, steps) && k < |states| && In(states[k], p, Hashed)
    ensures i < k && steps[i] == Hash(p) && p in states[k].hashed && states[k].hashed[p] == states[i].file
  {
    var s, step := states[k - 1], steps[k - 1];
    assert states[k] == Apply(s, step);
    if step == Hash(p) {
      i := k - 1;
    } else {
      i := HashedAt(states, steps, k - 1, p);
    }
  }

  /** The bytes stored are the bytes hashed, and so have the recorded digest, if and only if nobody has
      written in between. */
  lemma StoredIsHashedIff(states: seq<State>, steps: seq<Step>, k: nat, p: nat, ok: bool) returns (i: nat)
    requires IsRun(states, steps) && k < |steps| && steps[k] == Store(p, ok)
    ensures i < k && steps[i] == Hash(p) && p in states[k].hashed && states[k].hashed[p] == states[i].file
    ensures states[k].file == states[k].hashed[p] <==> QuietFrom(steps, i, k)
  {
    i := HashedAt(states, steps, k, p);
    FileGrows(states, steps, i, k);
  }

  // ----- Runs that go wrong -----

  predicate Next(s: State, step: Step, s': State) { Enabled(s, step) && s' == Apply(s, step) }

  lemma Longer(states: seq<State>, steps: seq<Step>, step: Step, s': State)
    requires IsRun(states, steps) && Next(states[|steps|], step, s')
    ensures IsRun(states + [s'], steps + [step])
  {
  }

  function Spoiled(text: seq<byte>, part: seq<byte>): State {
    State(part, 0, |text|, false, map[0 := Patch(0, part, Aborted)], map[], [])
  }

  lemma BreakingOff(text: seq<byte>, part: seq<byte>) returns (s0: State, s1: State, s2: State)
    requires part <= text && part != []
    ensures Fresh(s0) && s0.total == |text|
    ensures Next(s0, Start(0), s1) && Next(s1, Append(0, part), s2) && Next(s2, Abort(0), Spoiled(text, part))
  {
    assert [] + part == part;
    s0 := State([], 0, |text|, false, map[], map[], []);
    s1 := s0.(patches := map[0 := Patch(0, [], Writing)]);
    s2 := s1.(file := part, patches := map[0 := Patch(0, part, Writing)]);
  }

  lemma Resuming(text: seq<byte>, part: seq<byte>) returns (s4: State, s5: State, s6: State)
    requires part <= text && part != []
    ensures Next(Spoiled(text, part), Start(1), s4) && Next(s4, Append(1, text), s5) && Next(s5, Advance(1), s6)
    ensures Enabled(s6, Hash(1)) && Sends(s6, text) && s6.file == part + text && s6.total == |text|
  {
    assert [] + text == text && text[0..] == text;
    var s3 := Spoiled(text, part);
    s4 := s3.(patches := map[0 := Patch(0, part, Aborted), 1 := Patch(0, [], Writing)]);
    s5 := s4.(file := part + text, patches := map[0 := Patch(0, part, Aborted), 1 := Patch(0, text, Writing)]);
    s6 := s5.(offset := |text|, accepted := text,
      patches := map[0 := Patch(0, part, Aborted), 1 := Patch(0, text, Won)]);
  }

  /** A PATCH that breaks off after some bytes and is resumed from the reported offset: the session
      completes, with a file that is not the one sent. */
  lemma ResumedPatchSpoilsTheFile(text: seq<byte>, part: seq<byte>) returns (states: seq<State>, steps: seq<Step>)
    requires part <= text && part != []
    ensures IsRun(states, steps) && |steps| == 8 && steps[6] == Hash(1) && steps[7] == Store(1, true)
    ensures Sends(states[6], text) && states[0].total == |text|
    ensures states[6].file == states[7].file == part + text != text
  {
    states, steps := BrokenOff(text, part);
    var s4, s5, s6 := Resuming(text, part);
    Longer(states, steps, Start(1), s4);
    Longer(states + [s4], steps + [Start(1)], Append(1, text), s5);
    states, steps := states + [s4] + [s5], steps + [Start(1)] + [Append(1, text)];
    Longer(states, steps, Advance(1), s6);
    var s7 := Apply(s6, Hash(1));
    Longer(states + [s6], steps + [Advance(1)], Hash(1), s7);
    states, steps := states + [s6] + [s7], steps + [Advance(1)] + [Hash(1)];
    var s8 := Apply(s7, Store(1, true));
    Longer(states, steps, Store(1, true), s8);
    states, steps := states + [s8], steps + [Store(1, true)];
    assert |part + text| > |text|;
  }

  lemma BrokenOff(text: seq<byte>, part: seq<byte>) returns (states: seq<State>, steps: seq<Step>)
    requires part <= text && part != []
    ensures IsRun(states, steps) && steps == [Start(0), Append(0, part), Abort(0)]
    ensures states[0].total == |text| && states[3] == Spoiled(text, part)
  {
    var s0, s1, s2 := BreakingOff(text, part);
    Longer([s0], [], Start(0), s1);
    Longer([s0, s1], [Start(0)], Append(0, part), s2);
    Longer([s0, s1, s2], [Start(0), Append(0, part)], Abort(0), Spoiled(text, part));
    states := [s0, s1, s2, Spoiled(text, part)];
    steps := [Start(0), Append(0, part), Abort(0)];
  }

  /** Two PATCHes have begun, the first has sent everything, won, and hashed the temp file. */
  function TextHashed(text: seq<byte>): State {
    State(text, |text|, |text|, false, map[0 := Patch(0, text, Hashed), 1 := Patch(0, [], Writing)],
          map[0 := text], text)
  }

  lemma StartingBoth(text: seq<byte>) returns (states: seq<State>, steps: seq<Step>)
    requires text != []
    ensures IsRun(states, steps) && steps == [Start(0), Start(1)] && states[0].total == |text|
    ensures
      var patches := map[0 := Patch(0, [], Writing), 1 := Patch(0, [], Writing)];
      states[2] == State([], 0, |text|, false, patches, map[], [])
  {
    var s0 := State([], 0, |text|, false, map[], map[], []);
    var s1 := s0.(patches := map[0 := Patch(0, [], Writing)]);
    var s2 := s0.(patches := map[0 := Patch(0, [], Writing), 1 := Patch(0, [], Writing)]);
    Longer([s0], [], Start(0), s1);
    Longer([s0, s1], [Start(0)], Start(1), s2);
    states, steps := [s0, s1, s2], [Start(0), Start(1)];
  }

  lemma Winning(text: seq<byte>) returns (states: seq<State>, steps: seq<Step>)
    requires text != []
    ensures IsRun(states, steps) && states[0].total == |text| && states[|steps|] == TextHashed(text)
    ensures steps == [Start(0), Start(1), Append(0, text), Advance(0), Hash(0)]
  {
    states, steps := StartingBoth(text);
    assert [] + text == text;
    var s3 := Apply(states[2], Append(0, text));
    Longer(states, steps, Append(0, text), s3);
    var s4 := Apply(s3, Advance(0));
    Longer(states + [s3], steps + [Append(0, text)], Advance(0), s4);
    states, steps := states + [s3] + [s4], steps + [Append(0, text)] + [Advance(0)];
    Longer(states, steps, Hash(0), TextHashed(text));
    states, steps := states + [TextHashed(text)], steps + [Hash(0)];
  }

  lemma Straggling(text: seq<byte>, part: seq<byte>) returns (s6: State, s7: State)
    requires part <= text && part != []
    ensures Next(TextHashed(text), Append(1, part), s6) && Next(s6, Store(0, true), s7)
    ensures s6.hashed == map[0 := text] && s6.file == text + part != text
  {
    s6 := Apply(TextHashed(text), Append(1, part));
    s7 := Apply(s6, Store(0, true));
    assert |text + part| > |text|;
  }

  /** Two PATCHes from the start; one sends everything and wins. Its hash is the client's string's, yet
      what is stored under that hash is not, as the other goes on writing in between. */
  lemma StragglerSpoilsTheStore(text: seq<byte>, part: seq<byte>) returns (states: seq<State>, steps: seq<Step>)
    requires part <= text && part != []
    ensures IsRun(states, steps) && |steps| == 7 && steps[4] == Hash(0) && steps[6] == Store(0, true)
    ensures states[0].total == |text| && states[6].hashed == map[0 := text] && states[6].file == text + part != text
  {
    states, steps := Winning(text);
    var s6, s7 := Straggling(text, part);
    Longer(states, steps, Append(1, part), s6);
    states, steps := states + [s6], steps + [Append(1, part)];
    Longer(states, steps, Store(0, true), s7);
    states, steps := states + [s7], steps + [Store(0, true)];
  }
}
