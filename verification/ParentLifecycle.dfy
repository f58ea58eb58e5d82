/**
 The parent row of a timeline job: what a reconciliation pass publishes from its
 children, and the race between cancellation and the assembly of the final movie.

 A pass reads the latest parent and children, decides and commits without an await,
 so it is one event; an assembly claim is followed by a long await, so the claim
 keeps only the row version it was given.
 */
module ParentLifecycle {
  import opened Wrappers
  import opened PromptOwnership
  import O = OrderedOutputs

  datatype Cause = ByDirector | ByComfy | Unspecified

  /** A child as the pass sees it. Control barriers carry no segment. */
  datatype Member = Member(
    status: Status, cause: Cause, segments: seq<O.SegmentId>, bound: bool, child: O.Child)

  datatype Reason =
    | Completed | SegmentsCompleted | SegmentsFailed | SegmentsCancelled | SwitchFailed
    | OutputMissing | AssemblyFailed | CancelledByUser | RemovedUpstream | SubmissionFailed

  datatype Stage = Working | SegmentsReady | Assembling | AssemblyRetry | End(reason: Reason)

  /** Published outputs: one per segment, or the assembled movie. */
  datatype Published = Nothing | Segments(outputs: seq<O.Output>) | Movie

  datatype Parent = Parent(
    status: Status, stage: Stage, version: nat, cancelRequested: bool, published: Published)

  /** The selected enabled segments in timeline order, and whether one movie is wanted. */
  datatype Job = Job(ordered: seq<O.SegmentId>, wantsMovie: bool)

  predicate IsSegment(m: Member) {
    m.segments != []
  }

  predicate AllTerminal(ms: seq<Member>) {
    forall m | m in ms :: Terminal(m.status)
  }

  predicate SomeMember(ms: seq<Member>, segment: bool, status: Status) {
    exists m | m in ms :: IsSegment(m) == segment && m.status == status
  }

  /** Every cancelled member of one kind was cancelled by the director itself. */
  predicate CancelledByDirector(ms: seq<Member>, segment: bool) {
    forall m | m in ms && IsSegment(m) == segment && m.status.Cancelled? :: m.cause.ByDirector?
  }

  function Sources(ms: seq<Member>): seq<O.Child> {
    seq(|ms|, i requires 0 <= i < |ms| => ms[i].child)
  }

  ghost predicate Matches(job: Job, ms: seq<Member>, outputs: seq<O.Output>) {
    O.Complete(job.ordered, O.AllEntries(Sources(ms)), outputs)
  }

  /**
   A failed control barrier closes the siblings that never crossed the network: as
   cancelled when the barrier itself was cancelled on request, as failed otherwise.
   */
  function CloseSiblings(ms: seq<Member>, cancelRequested: bool): (closed: seq<Member>)
    ensures |closed| == |ms|
  {
    if !SomeMember(ms, false, Failed) && !SomeMember(ms, false, Cancelled) then ms else
      var onRequest := cancelRequested && !SomeMember(ms, false, Failed) && CancelledByDirector(ms, false);
      seq(|ms|, i requires 0 <= i < |ms| =>
        if !Terminal(ms[i].status) && !ms[i].bound
        then ms[i].(status := if onRequest then Cancelled else Failed,
                    cause := if onRequest then ByDirector else Unspecified)
        else ms[i])
  }

  datatype Verdict =
    | Publish(status: Status, stage: Stage, published: Published)
    | Stay(status: Status, stage: Stage)
    | Claim

  function ActiveStatus(p: Parent, ms: seq<Member>): Status {
    if p.status.Cancelling? then Cancelling
    else if SomeMember(ms, true, Preparing) then Preparing
    else if SomeMember(ms, true, Running) || SomeMember(ms, true, Succeeded) || SomeMember(ms, true, Failed)
    then Running
    else Queued
  }

  ghost function DecideSuccess(job: Job, ms: seq<Member>, allowAssembly: bool): Verdict {
    if !exists outputs :: Matches(job, ms, outputs) then Publish(Failed, End(OutputMissing), Nothing)
    else
      var outputs :| Matches(job, ms, outputs);
      if !job.wantsMovie then Publish(Succeeded, End(SegmentsCompleted), Segments(outputs))
      else if |outputs| == 1 then Publish(Succeeded, End(Completed), Segments(outputs))
      else if !allowAssembly then Stay(Running, SegmentsReady)
      else Claim
  }

  /** The branches of one pass, in the order they are tried. */
  ghost function Decide(job: Job, p: Parent, ms: seq<Member>, allowAssembly: bool, honor: bool): Verdict {
    var over := AllTerminal(ms);
    if over && SomeMember(ms, false, Failed) then Publish(Failed, End(SwitchFailed), p.published)
    else if honor && p.cancelRequested && over then Publish(Cancelled, End(CancelledByUser), Nothing)
    else if over && SomeMember(ms, false, Cancelled) then
      if p.cancelRequested && CancelledByDirector(ms, false) then Stay(Cancelling, Working)
      else Publish(Failed, End(SwitchFailed), p.published)
    else if honor && p.status.Cancelling? && over then Publish(Cancelled, End(CancelledByUser), Nothing)
    else if over && SomeMember(ms, true, Failed) then Publish(Failed, End(SegmentsFailed), p.published)
    else if over && SomeMember(ms, true, Cancelled) then
      if !honor && p.cancelRequested && CancelledByDirector(ms, true) then Stay(Cancelling, Working)
      else if forall m | m in ms && IsSegment(m) :: m.status.Cancelled? && m.cause.ByComfy?
      then Publish(Cancelled, End(RemovedUpstream), Nothing)
      else Publish(Failed, End(SegmentsCancelled), p.published)
    else if over then DecideSuccess(job, ms, allowAssembly)
    else Stay(ActiveStatus(p, ms), if p.status.Cancelling? then p.stage else Working)
  }

  // --- The race ----------------------------------------------------------

  /**
   `preclick` is the right of the request that set the cancel bit to one pass that
   still honours results older than the click. `claims` are assemblies in flight.
   */
  datatype System = System(
    job: Job, parent: Parent, members: seq<Member>, claims: set<nat>, preclick: bool)

  datatype Event =
    | MembersMove(members: seq<Member>)
    | RequestCancel
    | TurnCancelling
    | Pass(listed: Stage, allowAssembly: bool, honor: bool)
    | AssemblyEnds(claim: nat, ok: bool)
    | AssemblyReleased(claim: nat)
    | DispatcherWrites(status: Status, stage: Stage)
    | SubmissionCloses(status: Status)
    | Touch
    | Restart(interrupted: bool)

  /** Terminal members are frozen, and barriers are only inserted before an unfinished segment. */
  predicate Evolves(ms: seq<Member>, ms': seq<Member>) {
    && |ms| <= |ms'|
    && (AllTerminal(ms) ==> |ms'| == |ms|)
    && forall i | 0 <= i < |ms| :: Terminal(ms[i].status) ==> ms'[i] == ms[i]
  }

  function Write(p: Parent, status: Status, stage: Stage): Parent {
    p.(status := status, stage := stage, version := p.version + 1)
  }

  ghost function Commit(s: System, v: Verdict, ms: seq<Member>): System {
    match v
    case Publish(status, stage, published) =>
      s.(members := ms, parent := Write(s.parent, status, stage).(published := published))
    case Stay(status, stage) => s.(members := ms, parent := Write(s.parent, status, stage))
    case Claim =>
      s.(members := ms, parent := Write(s.parent, Running, Assembling),
         claims := s.claims + {s.parent.version + 1})
  }

  /** A pass that disregards the cancel intent exists once, and never assembles. */
  predicate PassAllowed(s: System, allowAssembly: bool, honor: bool) {
    honor || (!allowAssembly && s.preclick)
  }

  /**
   One pass. `listed` is the parent's stage when the caller listed it, before the pass
   awaited ComfyUI: a caller that may assemble leaves alone a parent it saw assembling.
   A pass over no children does nothing either.
   */
  ghost function DoPass(s: System, listed: Stage, allowAssembly: bool, honor: bool): System {
    if Terminal(s.parent.status) || !PassAllowed(s, allowAssembly, honor) || s.members == [] then s
    else if listed.Assembling? && allowAssembly then s
    else
      var ms := CloseSiblings(s.members, s.parent.cancelRequested);
      Commit(s.(preclick := s.preclick && honor), Decide(s.job, s.parent, ms, allowAssembly, honor), ms)
  }

  predicate ClaimCurrent(s: System, claim: nat) {
    && claim in s.claims && s.parent.status.Running? && s.parent.stage.Assembling?
    && s.parent.version == claim
  }

  ghost function Next(s: System, e: Event): System {
    match e
    case MembersMove(ms) => if Evolves(s.members, ms) then s.(members := ms) else s
    case RequestCancel =>
      if Terminal(s.parent.status) || s.parent.cancelRequested then s
      else s.(parent := s.parent.(cancelRequested := true, version := s.parent.version + 1), preclick := true)
    case TurnCancelling =>
      if Terminal(s.parent.status) then s else s.(parent := Write(s.parent, Cancelling, Working))
    case Pass(listed, allowAssembly, honor) => DoPass(s, listed, allowAssembly, honor)
    case AssemblyEnds(claim, ok) =>
      if !ClaimCurrent(s, claim) then s
      else if ok then s.(parent := Write(s.parent, Succeeded, End(Completed)).(published := Movie))
      else s.(parent := Write(s.parent, Failed, End(AssemblyFailed)).(published := Nothing))
    case AssemblyReleased(claim) =>
      if ClaimCurrent(s, claim) then s.(parent := Write(s.parent, Running, AssemblyRetry)) else s
    case DispatcherWrites(status, stage) =>
      if s.parent.status.Preparing? && (status.Preparing? || status.Queued? || status.Running?) && stage.Working?
      then s.(parent := Write(s.parent, status, stage)) else s
    case SubmissionCloses(status) =>
      if !Terminal(s.parent.status) && (status.Failed? || status.Cancelled?)
      then s.(parent := Write(s.parent, status, End(SubmissionFailed))) else s
    case Touch =>
      if Terminal(s.parent.status) then s
      else s.(parent := s.parent.(version := s.parent.version + 1))
    case Restart(interrupted) =>
      var lost := s.(claims := {}, preclick := false);
      if Terminal(s.parent.status) then lost
      else if interrupted then
        lost.(parent := Write(s.parent, Cancelling, Working).(cancelRequested := true))
      else if s.parent.status.Running? && s.parent.stage.Assembling? then
        lost.(parent := Write(s.parent, Running, AssemblyRetry))
      else lost
  }

  ghost function Run(s: System, events: seq<Event>): System
    decreases |events|
  {
    if events == [] then s else Run(Next(s, events[0]), events[1..])
  }

  predicate Initial(s: System) {
    && s.parent == Parent(Preparing, Working, 0, false, Nothing)
    && s.claims == {} && !s.preclick && O.Distinct(s.job.ordered)
  }

  /** Every segment and control succeeded, and the outputs match the timeline one to one. */
  ghost predicate CompleteResult(s: System) {
    && (forall m | m in s.members :: m.status.Succeeded?)
    && exists outputs :: Matches(s.job, s.members, outputs)
  }

  ghost predicate Inv(s: System) {
    && O.Distinct(s.job.ordered)
    && (forall v | v in s.claims :: v <= s.parent.version)
    && (s.claims != {} ==> CompleteResult(s) && s.job.wantsMovie)
    && (s.parent.version in s.claims ==>
          s.parent.status.Running? && s.parent.stage.Assembling? && !s.parent.cancelRequested)
    && (s.preclick ==> s.parent.cancelRequested)
    && (s.parent.status.Succeeded? ==>
          && CompleteResult(s)
          && (match s.parent.published
              case Segments(outputs) => Matches(s.job, s.members, outputs)
              case Movie => s.job.wantsMovie
              case Nothing => false))
  }

  // --- Proofs ------------------------------------------------------------

  lemma OverIsFrozen(s: System, ms: seq<Member>)
    requires CompleteResult(s) && Evolves(s.members, ms)
    ensures ms == s.members
  {
    assert forall i | 0 <= i < |s.members| :: s.members[i] in s.members;
  }

  lemma ClosedOnlyUnfinished(ms: seq<Member>, cancelRequested: bool)
    ensures Evolves(ms, CloseSiblings(ms, cancelRequested))
  {
  }

  // --- What a pass decides, exactly --------------------------------------

  /** The operator or an internal cleanup is cancelling, and this pass respects it. */
  predicate Asked(p: Parent, honor: bool) {
    honor && (p.cancelRequested || p.status.Cancelling?)
  }

  predicate Over(ms: seq<Member>) {
    forall m | m in ms :: m.status in {Succeeded, Failed, Cancelled}
  }

  predicate NoControl(ms: seq<Member>, status: Status) {
    forall m | m in ms && m.segments == [] :: m.status != status
  }

  predicate NoSegment(ms: seq<Member>, status: Status) {
    forall m | m in ms && m.segments != [] :: m.status != status
  }

  predicate ControlsEndedWell(ms: seq<Member>) {
    NoControl(ms, Failed) && NoControl(ms, Cancelled)
  }

  predicate SegmentsRemovedByComfy(ms: seq<Member>) {
    forall m | m in ms && m.segments != [] :: m.status == Cancelled && m.cause == ByComfy
  }

  predicate DirectorCancelledControls(ms: seq<Member>) {
    forall m | m in ms && m.segments == [] && m.status == Cancelled :: m.cause == ByDirector
  }

  predicate DirectorCancelledSegments(ms: seq<Member>) {
    forall m | m in ms && m.segments != [] && m.status == Cancelled :: m.cause == ByDirector
  }

  /** Everything has ended and no control failed, and the cancellation was asked for or is all ComfyUI's. */
  predicate Cancels(p: Parent, ms: seq<Member>, honor: bool) {
    && Over(ms) && NoControl(ms, Failed)
    && (|| (honor && p.cancelRequested)
        || (NoControl(ms, Cancelled)
            && (Asked(p, honor) || (!NoSegment(ms, Cancelled) && SegmentsRemovedByComfy(ms)))))
  }

  /** Some child failed or was lost, or the outputs do not match, and no cancellation accounts for it. */
  ghost predicate Fails(job: Job, p: Parent, ms: seq<Member>, honor: bool) {
    && Over(ms)
    && (|| !NoControl(ms, Failed)
        || (!NoControl(ms, Cancelled) && !(p.cancelRequested && (honor || DirectorCancelledControls(ms))))
        || (NoControl(ms, Cancelled) && !Asked(p, honor)
            && (|| !NoSegment(ms, Failed)
                || (!NoSegment(ms, Cancelled) && !SegmentsRemovedByComfy(ms)
                    && !(!honor && p.cancelRequested && DirectorCancelledSegments(ms)))
                || (NoSegment(ms, Cancelled) && forall outputs :: !Matches(job, ms, outputs)))))
  }

  /** Every child succeeded, nobody is cancelling, and `outputs` match the timeline. */
  ghost predicate Done(job: Job, p: Parent, ms: seq<Member>, honor: bool, outputs: seq<O.Output>) {
    && (forall m | m in ms :: m.status == Succeeded)
    && !Asked(p, honor) && Matches(job, ms, outputs)
  }

  lemma StatusSplits(ms: seq<Member>)
    ensures Over(ms) <==> AllTerminal(ms)
    ensures forall status :: NoControl(ms, status) <==> !SomeMember(ms, false, status)
    ensures forall status :: NoSegment(ms, status) <==> !SomeMember(ms, true, status)
    ensures DirectorCancelledControls(ms) <==> CancelledByDirector(ms, false)
    ensures DirectorCancelledSegments(ms) <==> CancelledByDirector(ms, true)
    ensures (AllTerminal(ms) && ControlsEndedWell(ms) && NoSegment(ms, Failed) && NoSegment(ms, Cancelled))
            <==> forall m | m in ms :: m.status == Succeeded
  {
    forall m | m in ms && !IsSegment(m) ensures m.segments == [] {
    }
  }

  lemma CancelledExactly(job: Job, p: Parent, ms: seq<Member>, allowAssembly: bool, honor: bool)
    ensures var v := Decide(job, p, ms, allowAssembly, honor);
            v.Publish? && v.status == Cancelled <==> Cancels(p, ms, honor)
  {
    StatusSplits(ms);
  }

  lemma FailedExactly(job: Job, p: Parent, ms: seq<Member>, allowAssembly: bool, honor: bool)
    ensures var v := Decide(job, p, ms, allowAssembly, honor);
            v.Publish? && v.status == Failed <==> Fails(job, p, ms, honor)
  {
    StatusSplits(ms);
  }

  lemma DoneExactly(job: Job, p: Parent, ms: seq<Member>, allowAssembly: bool, honor: bool)
    ensures var v := Decide(job, p, ms, allowAssembly, honor);
            && (v.Publish? && v.status == Succeeded <==>
                  exists outputs :: Done(job, p, ms, honor, outputs) && (!job.wantsMovie || |outputs| == 1))
            && (v.Claim? <==>
                  allowAssembly && job.wantsMovie && exists outputs :: Done(job, p, ms, honor, outputs) && |outputs| != 1)
  {
    StatusSplits(ms);
  }

  /**
   What a pass publishes, exactly. Cancelled: when everything ended without a failed
   control, and the cancellation was asked for or ComfyUI removed every segment. Failed:
   when something was lost that no cancellation accounts for. Succeeded: only on a full
   match that needs no assembly. A claim: only when a movie of several outputs is wanted.
   */
  lemma VerdictExactly(job: Job, p: Parent, ms: seq<Member>, allowAssembly: bool, honor: bool)
    ensures var v := Decide(job, p, ms, allowAssembly, honor);
            && (v.Publish? && v.status == Cancelled <==> Cancels(p, ms, honor))
            && (v.Publish? && v.status == Failed <==> Fails(job, p, ms, honor))
            && (v.Publish? && v.status == Succeeded <==>
                  exists outputs :: Done(job, p, ms, honor, outputs) && (!job.wantsMovie || |outputs| == 1))
            && (v.Claim? <==>
                  allowAssembly && job.wantsMovie && exists outputs :: Done(job, p, ms, honor, outputs) && |outputs| != 1)
            && (v.Publish? ==> v.status in {Succeeded, Failed, Cancelled})
  {
    CancelledExactly(job, p, ms, allowAssembly, honor);
    FailedExactly(job, p, ms, allowAssembly, honor);
    DoneExactly(job, p, ms, allowAssembly, honor);
  }

  /** Why a terminal verdict was reached, and what it publishes, exactly. */
  lemma ReasonExactly(job: Job, p: Parent, ms: seq<Member>, allowAssembly: bool, honor: bool)
    requires Decide(job, p, ms, allowAssembly, honor).Publish?
    ensures var v := Decide(job, p, ms, allowAssembly, honor);
            && (v.status == Cancelled ==>
                  && v.published == Nothing
                  && (Asked(p, honor) ==> v.stage == End(CancelledByUser))
                  && (!Asked(p, honor) ==> v.stage == End(RemovedUpstream)))
            && (v.status == Failed ==>
                  && (v.stage == End(SwitchFailed) <==> !ControlsEndedWell(ms))
                  && (v.stage == End(SegmentsFailed) <==> ControlsEndedWell(ms) && !NoSegment(ms, Failed))
                  && (v.stage == End(SegmentsCancelled) <==>
                        ControlsEndedWell(ms) && NoSegment(ms, Failed) && !NoSegment(ms, Cancelled))
                  && (v.stage == End(OutputMissing) <==> forall m | m in ms :: m.status == Succeeded)
                  && (v.stage == End(OutputMissing) ==> v.published == Nothing)
                  && (v.stage != End(OutputMissing) ==> v.published == p.published))
            && (v.status == Succeeded ==>
                  && (job.wantsMovie ==> v.stage == End(Completed))
                  && (!job.wantsMovie ==> v.stage == End(SegmentsCompleted))
                  && v.published.Segments? && Matches(job, ms, v.published.outputs))
  {
    StatusSplits(ms);
  }

  /** What a pass shows of a parent that goes on, exactly. */
  lemma ShownExactly(job: Job, p: Parent, ms: seq<Member>, allowAssembly: bool, honor: bool)
    requires Decide(job, p, ms, allowAssembly, honor).Stay?
    ensures var v := Decide(job, p, ms, allowAssembly, honor);
            && (!Over(ms) && p.status == Cancelling ==> v == Stay(Cancelling, p.stage))
            && (!Over(ms) && p.status != Cancelling ==>
                  && v.stage == Working
                  && (v.status == Preparing <==> !NoSegment(ms, Preparing))
                  && (v.status == Queued <==>
                        && NoSegment(ms, Preparing) && NoSegment(ms, Running)
                        && NoSegment(ms, Succeeded) && NoSegment(ms, Failed))
                  && v.status in {Preparing, Queued, Running})
            && (Over(ms) && (exists m :: m in ms && m.status != Succeeded) ==>
                  p.cancelRequested && v == Stay(Cancelling, Working))
            && (Over(ms) && (forall m | m in ms :: m.status == Succeeded) ==>
                  job.wantsMovie && !allowAssembly && v == Stay(Running, SegmentsReady))
  {
    StatusSplits(ms);
  }

  /** What the failure of a control does to each sibling, exactly. */
  lemma SiblingsExactly(ms: seq<Member>, cancelRequested: bool)
    ensures var closed := CloseSiblings(ms, cancelRequested);
            forall i | 0 <= i < |ms| ::
              && closed[i].segments == ms[i].segments && closed[i].bound == ms[i].bound && closed[i].child == ms[i].child
              && (if ControlsEndedWell(ms) || Terminal(ms[i].status) || ms[i].bound then closed[i] == ms[i]
                  else if cancelRequested && NoControl(ms, Failed) && DirectorCancelledControls(ms)
                  then closed[i].status == Cancelled && closed[i].cause == ByDirector
                  else closed[i].status == Failed && closed[i].cause == Unspecified)
  {
    StatusSplits(ms);
  }

  /** What a verdict says about the members it was reached from. */
  lemma VerdictMeaning(job: Job, p: Parent, ms: seq<Member>, allowAssembly: bool, honor: bool)
    ensures var v := Decide(job, p, ms, allowAssembly, honor);
            && (v.Publish? ==> AllTerminal(ms) && Terminal(v.status))
            && (v.Stay? ==> !Terminal(v.status))
            && ((v.Publish? && v.status.Succeeded?) || v.Claim? ==>
                  && (forall m | m in ms :: m.status.Succeeded?)
                  && (exists outputs :: Matches(job, ms, outputs))
                  && !(honor && (p.cancelRequested || p.status.Cancelling?)))
            && (v.Publish? && v.status.Succeeded? ==> v.published.Segments? && Matches(job, ms, v.published.outputs))
            && (v.Claim? ==> allowAssembly && job.wantsMovie)
  {
    var v := Decide(job, p, ms, allowAssembly, honor);
    if (v.Publish? && v.status.Succeeded?) || v.Claim? {
      forall m | m in ms ensures m.status.Succeeded? {
        assert Terminal(m.status);
        assert !SomeMember(ms, IsSegment(m), m.status) || m.status.Succeeded?;
      }
    }
  }

  lemma PassKeeps(s: System, listed: Stage, allowAssembly: bool, honor: bool)
    requires Inv(s)
    ensures Inv(DoPass(s, listed, allowAssembly, honor))
  {
    var ms := CloseSiblings(s.members, s.parent.cancelRequested);
    ClosedOnlyUnfinished(s.members, s.parent.cancelRequested);
    VerdictMeaning(s.job, s.parent, ms, allowAssembly, honor);
    if s.claims != {} { OverIsFrozen(s, ms); }
  }

  lemma NextKeeps(s: System, e: Event)
    requires Inv(s)
    ensures Inv(Next(s, e)) && Next(s, e).job == s.job
  {
    match e
    case MembersMove(ms) =>
      if Evolves(s.members, ms) && (s.claims != {} || s.parent.status.Succeeded?) { OverIsFrozen(s, ms); }
    case Pass(listed, allowAssembly, honor) => PassKeeps(s, listed, allowAssembly, honor);
    case AssemblyEnds(_, _) => AssemblyKeeps(s, e);
    case AssemblyReleased(_) => AssemblyKeeps(s, e);
    case _ => WriteKeeps(s, e);
  }

  lemma AssemblyKeeps(s: System, e: Event)
    requires Inv(s) && (e.AssemblyEnds? || e.AssemblyReleased?)
    ensures Inv(Next(s, e))
  {
  }

  lemma WriteKeeps(s: System, e: Event)
    requires Inv(s) && !e.MembersMove? && !e.Pass? && !e.AssemblyEnds? && !e.AssemblyReleased?
    ensures Inv(Next(s, e))
  {
  }

  lemma {:induction false} RunKeeps(s: System, events: seq<Event>)
    requires Inv(s)
    ensures Inv(Run(s, events))
    ensures Run(s, events).job == s.job
    decreases |events|
  {
    if events != [] {
      var t := Next(s, events[0]);
      assert Inv(t) && t.job == s.job by { NextKeeps(s, events[0]); }
      RunKeeps(t, events[1..]);
    }
  }

  // --- Main results ------------------------------------------------------

  /**
   Parent success is a complete bijection: in every run, a succeeded parent has only
   succeeded children, and the published outputs (or the segments the movie was made
   of) are the selected enabled segments' outputs, one each, in timeline order.
   */
  lemma ParentSuccessIsComplete(s: System, events: seq<Event>)
    requires Initial(s)
    ensures var t := Run(s, events);
            t.parent.status.Succeeded? ==>
              && (forall m | m in t.members :: m.status.Succeeded?)
              && (exists outputs :: Matches(s.job, t.members, outputs))
              && (t.parent.published.Segments? ==> Matches(s.job, t.members, t.parent.published.outputs))
              && (t.parent.published.Movie? ==> s.job.wantsMovie)
              && !t.parent.published.Nothing?
  {
    RunKeeps(s, events);
  }

  /** A pass ends the parent only when every child, after sibling closure, has ended. */
  lemma PassEndsLast(s: System, listed: Stage, allowAssembly: bool, honor: bool)
    requires !Terminal(s.parent.status)
    ensures var t := Next(s, Pass(listed, allowAssembly, honor));
            Terminal(t.parent.status) ==> AllTerminal(t.members)
  {
    VerdictMeaning(s.job, s.parent, CloseSiblings(s.members, s.parent.cancelRequested), allowAssembly, honor);
  }

  /**
   For a segments-only job that nobody cancels, a pass publishes success exactly when
   every child has succeeded and a complete match of the outputs exists.
   */
  lemma SuccessExactly(job: Job, p: Parent, ms: seq<Member>, allowAssembly: bool)
    requires !job.wantsMovie && !p.cancelRequested && !p.status.Cancelling?
    ensures var v := Decide(job, p, ms, allowAssembly, true);
            (v.Publish? && v.status.Succeeded?)
            <==> (forall m | m in ms :: m.status.Succeeded?) && exists outputs :: Matches(job, ms, outputs)
  {
    VerdictMeaning(job, p, ms, allowAssembly, true);
  }

  /** No assembly is claimed once the cancel bit is durable. */
  lemma NoClaimAfterCancel(s: System, e: Event)
    requires Inv(s) && s.parent.cancelRequested
    ensures Next(s, e).claims <= s.claims
  {
    if e.Pass? {
      VerdictMeaning(s.job, s.parent, CloseSiblings(s.members, s.parent.cancelRequested), e.allowAssembly, e.honor);
    }
  }

  /**
   New success after the cancel bit comes from one place: the single pass of the
   request that set the bit, which assembles nothing and uses up its right.
   */
  lemma SuccessAfterCancelIsPreclick(s: System, e: Event)
    requires Inv(s) && s.parent.cancelRequested && !s.parent.status.Succeeded?
    requires Next(s, e).parent.status.Succeeded?
    ensures e.Pass? && !e.allowAssembly && !e.honor && s.preclick && !Next(s, e).preclick
    ensures Next(s, e).parent.published.Segments?
  {
    if e.Pass? {
      VerdictMeaning(s.job, s.parent, CloseSiblings(s.members, s.parent.cancelRequested), e.allowAssembly, e.honor);
    }
  }

  lemma CancelledStays(s: System, e: Event)
    requires Inv(s) && s.parent.cancelRequested && !s.preclick && !s.parent.status.Succeeded?
    ensures var t := Next(s, e); Inv(t) && t.parent.cancelRequested && !t.preclick && !t.parent.status.Succeeded?
  {
    NextKeeps(s, e);
    if Next(s, e).parent.status.Succeeded? { SuccessAfterCancelIsPreclick(s, e); }
  }

  /** Once that pass is over, no run ever turns the cancelled job into a success. */
  lemma {:induction false} CancelWins(s: System, events: seq<Event>)
    requires Inv(s) && s.parent.cancelRequested && !s.preclick && !s.parent.status.Succeeded?
    ensures !Run(s, events).parent.status.Succeeded?
    decreases |events|
  {
    if events != [] {
      CancelledStays(s, events[0]);
      CancelWins(Next(s, events[0]), events[1..]);
    }
  }

  /**
   An assembly that was overtaken stays overtaken: once the row has moved past its
   claim, by cancellation or anything else, its result changes nothing in any run.
   */
  lemma {:induction false} OvertakenClaimIsInert(s: System, events: seq<Event>, claim: nat, ok: bool)
    requires claim < s.parent.version
    ensures var t := Run(s, events); Next(t, AssemblyEnds(claim, ok)) == t
    decreases |events|
  {
    if events != [] {
      OvertakenClaimIsInert(Next(s, events[0]), events[1..], claim, ok);
    }
  }

  /** Turning the parent `cancelling`, setting the bit, or any other write overtakes every claim. */
  lemma CancellationOvertakes(s: System, e: Event, claim: nat)
    requires Inv(s) && claim in s.claims && !Terminal(s.parent.status)
    requires e.TurnCancelling? || (e.RequestCancel? && !s.parent.cancelRequested) || e.Touch?
    ensures claim < Next(s, e).parent.version
  {
  }

  /** The parent's terminal status is absorbing over whole runs. */
  lemma {:induction false} TerminalParentIsAbsorbing(s: System, events: seq<Event>)
    requires Terminal(s.parent.status)
    ensures Run(s, events).parent.status == s.parent.status
    ensures Run(s, events).parent.published == s.parent.published
    decreases |events|
  {
    if events != [] {
      TerminalParentIsAbsorbing(Next(s, events[0]), events[1..]);
    }
  }

  /**
   Whatever happens, a movie is newly published exactly when an assembly that worked ends
   while its claim is current; then no cancellation was requested, and the movie was made
   of a complete match of succeeded children.
   */
  lemma AssemblyPublishesExactly(s: System, e: Event)
    requires Inv(s) && !s.parent.status.Succeeded?
    ensures var t := Next(s, e);
            && (t.parent.status.Succeeded? && t.parent.published.Movie? <==>
                  e.AssemblyEnds? && e.ok && ClaimCurrent(s, e.claim))
            && (t.parent.status.Succeeded? && t.parent.published.Movie? ==>
                  CompleteResult(t) && s.job.wantsMovie && !s.parent.cancelRequested)
  {
    NextKeeps(s, e);
    if e.Pass? {
      VerdictMeaning(s.job, s.parent, CloseSiblings(s.members, s.parent.cancelRequested), e.allowAssembly, e.honor);
    }
  }

  lemma NothingToClose(ms: seq<Member>, cancelRequested: bool)
    requires forall m | m in ms :: m.status.Succeeded?
    ensures CloseSiblings(ms, cancelRequested) == ms
  {
    var closed := CloseSiblings(ms, cancelRequested);
    forall i | 0 <= i < |ms| ensures closed[i] == ms[i] {
      assert ms[i] in ms;
    }
  }

  /**
   An undisturbed job whose movie is wanted, that nobody is assembling yet and whose
   children all succeeded with a complete match of several outputs is claimed by one pass;
   later passes leave the claim alone, and its assembly decides the job.
   */
  lemma UndisturbedMovieIsDecided(s: System, outputs: seq<O.Output>, ok: bool)
    requires !Terminal(s.parent.status) && !s.parent.status.Cancelling? && !s.parent.cancelRequested
    requires !s.parent.stage.Assembling?
    requires s.members != [] && s.job.wantsMovie && O.Distinct(s.job.ordered)
    requires (forall m | m in s.members :: m.status.Succeeded?) && Matches(s.job, s.members, outputs) && |outputs| != 1
    ensures var claimed := Next(s, Pass(s.parent.stage, true, true));
            var t := Next(claimed, AssemblyEnds(claimed.parent.version, ok));
            && ClaimCurrent(claimed, claimed.parent.version)
            && Next(claimed, Pass(claimed.parent.stage, true, true)) == claimed
            && t.parent.status == (if ok then Succeeded else Failed)
            && (ok ==> t.parent.published.Movie?)
  {
    NothingToClose(s.members, s.parent.cancelRequested);
    assert Terminal(Succeeded);
    forall other | Matches(s.job, s.members, other) ensures |other| == |outputs| {
    }
    assert Decide(s.job, s.parent, s.members, true, true).Claim?;
  }
}
