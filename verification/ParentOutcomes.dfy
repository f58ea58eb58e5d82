/**
 Whole runs of a parent row, seen from its end: the reason it shows is true, nobody's
 cancellation is invented, and cancelled jobs and lost assemblies come to their end.
 */
module ParentOutcomes {
  import opened Wrappers
  import opened PromptOwnership
  import opened ParentLifecycle
  import O = OrderedOutputs

  // --- The reason shown is true ------------------------------------------

  /** What the reason of an ended parent says about its children. */
  ghost predicate Explains(s: System, reason: Reason) {
    match reason
    case SwitchFailed => !ControlsEndedWell(s.members)
    case SegmentsFailed => !NoSegment(s.members, Failed)
    case SegmentsCancelled => !NoSegment(s.members, Cancelled)
    case OutputMissing =>
      (forall m | m in s.members :: m.status == Succeeded) && forall outputs :: !Matches(s.job, s.members, outputs)
    case RemovedUpstream => !NoSegment(s.members, Cancelled) && SegmentsRemovedByComfy(s.members)
    case AssemblyFailed => CompleteResult(s) && s.job.wantsMovie
    case Completed => CompleteResult(s) && s.job.wantsMovie
    case SegmentsCompleted => CompleteResult(s) && !s.job.wantsMovie
    case _ => true
  }

  predicate Fits(status: Status, reason: Reason) {
    match reason
    case Completed => status == Succeeded
    case SegmentsCompleted => status == Succeeded
    case CancelledByUser => status == Cancelled
    case RemovedUpstream => status == Cancelled
    case SubmissionFailed => status == Failed || status == Cancelled
    case _ => status == Failed
  }

  ghost predicate Explained(s: System) {
    Terminal(s.parent.status) ==>
      && s.parent.stage.End? && Fits(s.parent.status, s.parent.stage.reason) && Explains(s, s.parent.stage.reason)
      && (s.parent.stage.reason != SubmissionFailed ==> AllTerminal(s.members))
  }

  /** The reason a verdict gives is true of the members it was reached from. */
  lemma VerdictExplains(s: System, allowAssembly: bool, honor: bool)
    requires Decide(s.job, s.parent, s.members, allowAssembly, honor).Publish?
    ensures var v := Decide(s.job, s.parent, s.members, allowAssembly, honor);
            v.stage.End? && Fits(v.status, v.stage.reason) && Explains(s, v.stage.reason) && AllTerminal(s.members)
  {
    VerdictMeaning(s.job, s.parent, s.members, allowAssembly, honor);
    VerdictExactly(s.job, s.parent, s.members, allowAssembly, honor);
    ReasonExactly(s.job, s.parent, s.members, allowAssembly, honor);
  }

  lemma PassExplains(s: System, listed: Stage, allowAssembly: bool, honor: bool)
    requires Inv(s) && Explained(s)
    ensures Explained(DoPass(s, listed, allowAssembly, honor))
  {
    var ms := CloseSiblings(s.members, s.parent.cancelRequested);
    var v := Decide(s.job, s.parent, ms, allowAssembly, honor);
    if v.Publish? {
      VerdictExplains(s.(members := ms), allowAssembly, honor);
    } else {
      VerdictMeaning(s.job, s.parent, ms, allowAssembly, honor);
    }
  }

  lemma EvolutionExplains(s: System, ms: seq<Member>)
    requires Explained(s) && Evolves(s.members, ms)
    ensures Explained(s.(members := ms))
  {
    if AllTerminal(s.members) {
      assert forall i | 0 <= i < |s.members| :: s.members[i] in s.members;
      assert ms == s.members;
    }
  }

  lemma NextExplains(s: System, e: Event)
    requires Inv(s) && Explained(s)
    ensures Explained(Next(s, e))
  {
    match e
    case MembersMove(ms) => if Evolves(s.members, ms) { EvolutionExplains(s, ms); }
    case Pass(listed, allowAssembly, honor) => PassExplains(s, listed, allowAssembly, honor);
    case _ =>
  }

  /**
   A reason is never made up: in every run the status of an ended parent fits the reason
   it shows, and what the reason says of the children is true of them for good.
   */
  lemma {:induction false} ReasonsAreTrue(s: System, events: seq<Event>)
    requires Inv(s) && Explained(s)
    ensures Explained(Run(s, events))
    decreases |events|
  {
    if events != [] {
      NextKeeps(s, events[0]);
      NextExplains(s, events[0]);
      ReasonsAreTrue(Next(s, events[0]), events[1..]);
    }
  }

  predicate AsksToCancel(e: Event) {
    e.RequestCancel? || e.TurnCancelling? || (e.Restart? && e.interrupted) || (e.SubmissionCloses? && e.status.Cancelled?)
  }

  predicate Unasked(s: System) {
    && !s.parent.cancelRequested && s.parent.status != Cancelling
    && (s.parent.status == Cancelled ==>
          !NoSegment(s.members, Cancelled) && SegmentsRemovedByComfy(s.members) && AllTerminal(s.members))
  }

  lemma UnaskedPass(s: System, listed: Stage, allowAssembly: bool, honor: bool)
    requires Unasked(s)
    ensures Unasked(DoPass(s, listed, allowAssembly, honor))
  {
    var ms := CloseSiblings(s.members, false);
    StatusSplits(ms);
    CancelledExactly(s.job, s.parent, ms, allowAssembly, honor);
    if Decide(s.job, s.parent, ms, allowAssembly, honor).Stay? {
      ShownExactly(s.job, s.parent, ms, allowAssembly, honor);
    }
  }

  lemma UnaskedMembers(s: System, ms: seq<Member>)
    requires Unasked(s) && Evolves(s.members, ms)
    ensures Unasked(s.(members := ms))
  {
    if AllTerminal(s.members) {
      assert forall i | 0 <= i < |s.members| :: s.members[i] in s.members;
      assert ms == s.members;
    }
  }

  lemma UnaskedWrites(s: System, e: Event)
    requires Unasked(s) && !AsksToCancel(e) && !e.Pass? && !e.MembersMove?
    ensures Unasked(Next(s, e))
  {
  }

  lemma NobodyAskedYet(s: System, e: Event)
    requires Unasked(s) && !AsksToCancel(e)
    ensures Unasked(Next(s, e))
  {
    match e
    case MembersMove(ms) => if Evolves(s.members, ms) { UnaskedMembers(s, ms); }
    case Pass(listed, allowAssembly, honor) => UnaskedPass(s, listed, allowAssembly, honor);
    case _ => UnaskedWrites(s, e);
  }

  /** Nobody's cancellation is invented: without a request, a job ends cancelled only if ComfyUI removed every segment. */
  lemma {:induction false} OnlyAskedOrRemovedIsCancelled(s: System, events: seq<Event>)
    requires Unasked(s) && forall e | e in events :: !AsksToCancel(e)
    ensures Run(s, events).parent.status == Cancelled ==>
              !NoSegment(Run(s, events).members, Cancelled) && SegmentsRemovedByComfy(Run(s, events).members)
    decreases |events|
  {
    if events != [] {
      assert events[0] in events;
      NobodyAskedYet(s, events[0]);
      OnlyAskedOrRemovedIsCancelled(Next(s, events[0]), events[1..]);
    }
  }

  // --- What cancellation and restarts lead to ----------------------------

  /** The request sets the bit, grants its own pass and overtakes every claim; nothing else changes. */
  lemma RequestIsDurable(s: System)
    ensures var t := Next(s, RequestCancel);
            && (Terminal(s.parent.status) || s.parent.cancelRequested ==> t == s)
            && (!Terminal(s.parent.status) && !s.parent.cancelRequested ==>
                  && t.parent.cancelRequested && t.preclick && t.parent.version > s.parent.version
                  && t.parent.status == s.parent.status && t.parent.stage == s.parent.stage
                  && t.parent.published == s.parent.published && t.members == s.members && t.claims == s.claims)
  {
  }

  /**
   A cancelled job ends cancelled: once every child has ended, no control having failed, the
   first pass that respects the request publishes the user's cancellation and no output,
   whether or not the parent was turned cancelling in between.
   */
  lemma CancelledJobEnds(s: System, turned: bool, listed: Stage, allowAssembly: bool)
    requires !Terminal(s.parent.status) && !s.parent.cancelRequested && s.members != []
    requires Over(s.members) && NoControl(s.members, Failed) && !(listed.Assembling? && allowAssembly)
    ensures var asked := Next(s, RequestCancel);
            var t := Next(if turned then Next(asked, TurnCancelling) else asked, Pass(listed, allowAssembly, true));
            && t.parent.status == Cancelled && t.parent.stage == End(CancelledByUser) && t.parent.published == Nothing
            && t.members == s.members && t.claims == s.claims
  {
    var asked := Next(s, RequestCancel);
    var p := (if turned then Next(asked, TurnCancelling) else asked).parent;
    StatusSplits(s.members);
    EndedAreLeftAlone(s.members, true);
    CancelledExactly(s.job, p, s.members, allowAssembly, true);
    ReasonExactly(s.job, p, s.members, allowAssembly, true);
  }

  /** The request's own pass is used up by the one pass that disregards it, and by no other. */
  lemma OwnPassIsUsedOnce(s: System, listed: Stage, allowAssembly: bool)
    requires !Terminal(s.parent.status) && s.members != []
    ensures Next(s, Pass(listed, allowAssembly, true)).preclick == s.preclick
    ensures !Next(s, Pass(listed, false, false)).preclick
    ensures !s.preclick || allowAssembly ==> Next(s, Pass(listed, allowAssembly, false)) == s
    ensures s.preclick ==> Next(s, Pass(listed, false, false)).parent.version > s.parent.version
  {
  }

  lemma EndedAreLeftAlone(ms: seq<Member>, cancelRequested: bool)
    requires AllTerminal(ms)
    ensures CloseSiblings(ms, cancelRequested) == ms
  {
    var closed := CloseSiblings(ms, cancelRequested);
    forall i | 0 <= i < |ms| ensures closed[i] == ms[i] {
      assert ms[i] in ms;
    }
  }

  /** Turning the parent cancelling shows it as such, keeps its outputs and leaves an ended one alone. */
  lemma TurningShows(s: System)
    ensures var t := Next(s, TurnCancelling);
            && (Terminal(s.parent.status) ==> t == s)
            && (!Terminal(s.parent.status) ==>
                  t.parent.status == Cancelling && t.parent.stage == Working && t.parent.version > s.parent.version
                  && t.parent.cancelRequested == s.parent.cancelRequested && t.parent.published == s.parent.published
                  && t.members == s.members && t.claims == s.claims && t.preclick == s.preclick)
  {
  }

  /**
   An assembly that a restart cut off is made again: its claim is forgotten, and the next
   pass that may assemble claims anew, under a version the lost assembly does not hold.
   */
  lemma LostAssemblyIsRetried(s: System, outputs: seq<O.Output>)
    requires Inv(s) && s.parent.version in s.claims && s.members != []
    requires Matches(s.job, s.members, outputs) && |outputs| != 1
    ensures var lost := Next(s, Restart(false));
            var again := Next(lost, Pass(lost.parent.stage, true, true));
            && lost.claims == {} && lost.parent.stage == AssemblyRetry && lost.parent.status == Running
            && ClaimCurrent(again, again.parent.version) && again.parent.version > s.parent.version
            && !ClaimCurrent(again, s.parent.version)
  {
    var lost := Next(s, Restart(false));
    UndisturbedMovieIsDecided(lost, outputs, true);
  }

  /** So is one whose claim is given back. */
  lemma ReleasedAssemblyIsRetried(s: System, outputs: seq<O.Output>)
    requires Inv(s) && s.parent.version in s.claims && s.members != []
    requires Matches(s.job, s.members, outputs) && |outputs| != 1
    ensures var released := Next(s, AssemblyReleased(s.parent.version));
            var again := Next(released, Pass(released.parent.stage, true, true));
            && released.parent.stage == AssemblyRetry && released.parent.status == Running && released.claims == s.claims
            && ClaimCurrent(again, again.parent.version) && again.parent.version > s.parent.version
  {
    var released := Next(s, AssemblyReleased(s.parent.version));
    UndisturbedMovieIsDecided(released, outputs, true);
  }

  /** A restart that interrupted the submission turns an active parent cancelling, for good reason recorded in the bit. */
  lemma InterruptedJobIsCancelling(s: System)
    ensures var t := Next(s, Restart(true));
            && t.claims == {} && !t.preclick && t.members == s.members
            && (Terminal(s.parent.status) ==> t.parent == s.parent)
            && (!Terminal(s.parent.status) ==>
                  t.parent.status == Cancelling && t.parent.stage == Working && t.parent.cancelRequested)
  {
  }

  /** Any other restart forgets the claims and touches the parent only if it was assembling while running. */
  lemma PlainRestartForgetsClaims(s: System)
    ensures var t := Next(s, Restart(false));
            && t.claims == {} && !t.preclick && t.members == s.members
            && (s.parent.status != Running || s.parent.stage != Assembling ==> t.parent == s.parent)
  {
  }

  /** The dispatcher moves a preparing parent on; once that is queued, running or cancelling, its late writes change nothing. */
  lemma DispatcherWritesWhilePreparing(s: System, status: Status)
    requires status.Preparing? || status.Queued? || status.Running?
    ensures var t := Next(s, DispatcherWrites(status, Working));
            && (s.parent.status.Preparing? ==> t.parent.status == status && t.parent.version > s.parent.version
                                               && t.parent.cancelRequested == s.parent.cancelRequested)
            && (!s.parent.status.Preparing? ==> t == s)
            && t.members == s.members && t.claims == s.claims
  {
  }
}
