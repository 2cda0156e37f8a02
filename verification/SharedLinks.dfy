/**
 Downloading through a shared link: the checks on the link as it was read, the tries at the storage
 locations, and the increment that settles who still gets the data; then any number of requests at
 once.
 */
module SharedLinks {
  import opened Wrappers
  import opened Lists
  import opened Tables
  import opened FileService

  datatype Link = Link(
    isActive: bool, expiresAt: Option<Time>, hasPassword: bool, maxDownloads: Option<int>, downloadCount: int)

  datatype LinkError = LinkNotFound | TokenRequired | TokenInvalid | LimitReached | NoLocations | AllLocationsFailed

  /** What the request carries: nothing, or a download token that is good or not. */
  datatype Token = Missing | Invalid | Valid

  predicate Accessible(link: Link, now: Time) {
    link.isActive && (link.expiresAt.Some? ==> now <= link.expiresAt.value)
  }

  predicate Exhausted(link: Link) { link.maxDownloads.Some? && link.downloadCount >= link.maxDownloads.value }

  /** Why a request is refused before anything is downloaded. */
  function Refusal(link: Link, token: Token, now: Time): Option<LinkError> {
    if !Accessible(link, now) then Some(LinkNotFound)
    else if link.hasPassword && token.Missing? then Some(TokenRequired)
    else if link.hasPassword && token.Invalid? then Some(TokenInvalid)
    else if Exhausted(link) then Some(LimitReached)
    else None
  }

  /** The data of the first backend that answers, location by location. */
  function FirstAnswer(tries: seq<Option<seq<byte>>>): Option<seq<byte>> {
    if tries == [] then None else if tries[0].Some? then tries[0] else FirstAnswer(tries[1..])
  }

  predicate HasRoom(link: Link) { link.maxDownloads.Some? ==> link.downloadCount < link.maxDownloads.value }

  predicate AllFail(tries: seq<Option<seq<byte>>>) { forall t | t in tries :: t.None? }

  /** The j-th backend of the i-th location answers, and none before it. */
  predicate DeliversFirst(locations: seq<seq<Option<seq<byte>>>>, i: int, j: int) {
    && 0 <= i < |locations| && 0 <= j < |locations[i]| && locations[i][j].Some? && AllFail(locations[i][..j])
    && forall k :: 0 <= k < i ==> AllFail(locations[k])
  }

  class LinkRow {
    var link: Link

    constructor (link: Link)
      ensures this.link == link
    {
      this.link := link;
    }

    /** The guarded UPDATE; true if it touched the row. */
    method IncrementDownloadCount() returns (incremented: bool)
      modifies this
      ensures incremented <==> !Exhausted(old(link))
      ensures link == old(link).(downloadCount := old(link).downloadCount + if incremented then 1 else 0)
    {
      incremented := link.maxDownloads.None? || link.downloadCount < link.maxDownloads.value;
      if incremented { link := link.(downloadCount := link.downloadCount + 1); }
    }

    /** `read` is the link as the request found it, perhaps no longer the row's value. The count goes
        up by one exactly when the data is returned. */
    method DownloadViaLink(read: Link, token: Token, now: Time, locations: seq<seq<Option<seq<byte>>>>)
      returns (r: Result<seq<byte>, LinkError>)
      modifies this
      ensures link == old(link).(downloadCount := old(link).downloadCount + if r.Ok? then 1 else 0)
      ensures Refusal(read, token, now).Some? ==> r == Err(Refusal(read, token, now).value)
      ensures Refusal(read, token, now).None? ==>
        match FirstAnswer(Flatten(locations))
        case None => r == Err(if locations == [] then NoLocations else AllLocationsFailed)
        case Some(data) => r == (if Exhausted(old(link)) then Err(LimitReached) else Ok(data))
      ensures
        var open := read.isActive && !(read.expiresAt.Some? && read.expiresAt.value < now);
        && (r == Err(LinkNotFound) <==> !open)
        && (r == Err(TokenRequired) <==> open && read.hasPassword && token == Missing)
        && (r == Err(TokenInvalid) <==> open && read.hasPassword && token == Invalid)
        && (r.Ok? || r == Err(NoLocations) || r == Err(AllLocationsFailed) ==> HasRoom(read))
        && (r.Ok? ==>
          HasRoom(old(link)) && exists i, j :: DeliversFirst(locations, i, j) && locations[i][j] == Some(r.value))
        && (r == Err(LimitReached) ==>
              !HasRoom(read) || (!HasRoom(old(link)) && exists i, j :: DeliversFirst(locations, i, j)))
        && (r == Err(NoLocations) ==> locations == [])
        && (r == Err(AllLocationsFailed) ==> locations != [] && forall tries | tries in locations :: AllFail(tries))
    {
      if !read.isActive { return Err(LinkNotFound); }
      if read.expiresAt.Some? && now > read.expiresAt.value { return Err(LinkNotFound); }
      if read.hasPassword {
        if token.Missing? { return Err(TokenRequired); }
        if token.Invalid? { return Err(TokenInvalid); }
      }
      if read.maxDownloads.Some? && read.downloadCount >= read.maxDownloads.value { return Err(LimitReached); }
      if locations == [] { return Err(NoLocations); }
      for i := 0 to |locations|
        invariant link == old(link) && forall k :: 0 <= k < i ==> AllFail(locations[k])
        invariant FirstAnswer(Flatten(locations)) == FirstAnswer(Flatten(locations[i..]))
      {
        assert locations[i..][1..] == locations[i + 1..];
        var tries := locations[i];
        assert tries[0..] == tries;
        for j := 0 to |tries|
          invariant link == old(link) && AllFail(tries[..j])
          invariant FirstAnswer(Flatten(locations)) == FirstAnswer(tries[j..] + Flatten(locations[i + 1..]))
        {
          assert (tries[j..] + Flatten(locations[i + 1..]))[1..] == tries[j + 1..] + Flatten(locations[i + 1..]);
          if tries[j].Some? {
            assert DeliversFirst(locations, i, j);
            var incremented := IncrementDownloadCount();
            if !incremented { return Err(LimitReached); }
            return Ok(tries[j].value);
          }
        }
        assert tries[..|tries|] == tries;
        assert tries[|tries|..] + Flatten(locations[i + 1..]) == Flatten(locations[i + 1..]);
      }
      r := Err(AllLocationsFailed);
    }
  }

  // ----- Many requests -----

  datatype Phase = Downloading | Served | Refused | Broken

  /** Refused is for reaching the limit, at either check. */
  datatype Visit = Visit(read: Link, phase: Phase)

  datatype State = State(link: Link, visits: map<nat, Visit>)

  datatype Step =
    | Open(v: nat, now: Time)   // reads the link and passes, or not, the checks
    | Answer(v: nat)            // a location delivered: increment, then respond
    | Fail(v: nat)
    | Deactivate

  predicate Enabled(s: State, step: Step) {
    match step
    case Open(v, now) => v !in s.visits && Accessible(s.link, now)
    case Answer(v) => v in s.visits && s.visits[v].phase == Downloading
    case Fail(v) => v in s.visits && s.visits[v].phase == Downloading
    case Deactivate => true
  }

  function Apply(s: State, step: Step): State
    requires Enabled(s, step)
  {
    match step
    case Open(v, _) => s.(visits := s.visits[v := Visit(s.link, if Exhausted(s.link) then Refused else Downloading)])
    case Answer(v) =>
      if Exhausted(s.link) then s.(visits := s.visits[v := s.visits[v].(phase := Refused)])
      else State(s.link.(downloadCount := s.link.downloadCount + 1), s.visits[v := s.visits[v].(phase := Served)])
    case Fail(v) => s.(visits := s.visits[v := s.visits[v].(phase := Broken)])
    case Deactivate => s.(link := s.link.(isActive := false))
  }

  function ServedVisits(s: State): set<nat> { set v | v in s.visits && s.visits[v].phase == Served }

  predicate Inv(s: State) {
    && |ServedVisits(s)| == s.link.downloadCount
    && (s.link.maxDownloads.Some? ==> s.link.downloadCount == 0 || s.link.downloadCount <= s.link.maxDownloads.value)
    && (forall v | v in s.visits && s.visits[v].phase == Refused :: Exhausted(s.link))
  }

  lemma InvStep(s: State, step: Step)
    requires Inv(s) && Enabled(s, step)
    ensures Inv(Apply(s, step)) && Apply(s, step).link.maxDownloads == s.link.maxDownloads
  {
    var s' := Apply(s, step);
    if step.Answer? && !Exhausted(s.link) {
      assert ServedVisits(s') == ServedVisits(s) + {step.v};
    } else {
      assert ServedVisits(s') == ServedVisits(s);
    }
  }

  predicate IsRun(states: seq<State>, steps: seq<Step>) {
    && |states| == |steps| + 1 && states[0].visits == map[] && states[0].link.downloadCount == 0
    && forall i :: 0 <= i < |steps| ==> Enabled(states[i], steps[i]) && states[i + 1] == Apply(states[i], steps[i])
  }

  lemma {:induction false} InvHolds(states: seq<State>, steps: seq<Step>, i: nat)
    requires IsRun(states, steps) && i < |states|
    ensures Inv(states[i]) && states[i].link.maxDownloads == states[0].link.maxDownloads
  {
    if i == 0 {
      assert ServedVisits(states[0]) == {};
    } else {
      InvHolds(states, steps, i - 1);
      InvStep(states[i - 1], steps[i - 1]);
    }
  }

  /** However the requests interleave: as many responses with data as the count says, never more than
      the limit, and nobody is told the limit is reached while there is still something left. */
  lemma ServedWithinLimit(states: seq<State>, steps: seq<Step>, i: nat, max: int)
    requires IsRun(states, steps) && i < |states| && states[0].link.maxDownloads == Some(max)
    ensures |ServedVisits(states[i])| == states[i].link.downloadCount <= (if max < 0 then 0 else max)
    ensures forall v | v in states[i].visits && states[i].visits[v].phase == Refused ::
      states[i].link.downloadCount >= max
  {
    InvHolds(states, steps, i);
  }
}
