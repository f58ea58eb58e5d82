/**
 The durable ownership record of one submitted ComfyUI prompt: its states, the
 evidence that may release it, and the revision-checked transition function.
 */
module PromptOwnership {
  import opened Wrappers

  type PromptId = nat

  datatype Status = Preparing | Queued | Running | Cancelling | Succeeded | Failed | Cancelled

  predicate Terminal(s: Status) {
    s.Succeeded? || s.Failed? || s.Cancelled?
  }

  datatype State =
    | Prepared | Submitting | OwnedRequestedId | OwnedActualId
    | CancelPending | Unconfirmed | CleanupConfirmed | TerminalConfirmed

  datatype Evidence =
    | HistoryTerminal(promptId: PromptId, status: Status, observedAt: nat)
    | ExactCancelConfirmed(promptId: PromptId, confirmedAt: nat)
    | EndpointRestart(promptId: PromptId, confirmedAt: nat)

  predicate ConfirmedState(s: State) {
    s.CleanupConfirmed? || s.TerminalConfirmed?
  }

  datatype Ownership = Ownership(
    requested: PromptId,
    actual: Option<PromptId>,
    state: State,
    revision: nat,
    certificate: Option<Evidence>,
    updatedAt: nat)
  {
    function Effective(): PromptId {
      if actual.Some? then actual.value else requested
    }

    predicate Confirmed() {
      ConfirmedState(state)
    }

    /** The record validators: which ids and which evidence each state may carry. */
    predicate Valid() {
      && (state.Prepared? || state.Submitting? || state.OwnedRequestedId? ==> actual.None?)
      && (state.OwnedActualId? ==> actual.Some?)
      && (Confirmed() <==> certificate.Some?)
      && (certificate.Some? ==> certificate.value.promptId == Effective())
      && (state.TerminalConfirmed? ==> certificate.value.HistoryTerminal?)
      && (state.CleanupConfirmed? ==> !certificate.value.HistoryTerminal?)
    }
  }

  datatype OwnershipError = StaleRevision | IllegalTransition | IllegalEvidence

  function SuccessorStates(s: State): set<State> {
    match s
    case Prepared => {Prepared, Submitting, Unconfirmed}
    case Submitting =>
      {Submitting, OwnedRequestedId, OwnedActualId, CancelPending,
       CleanupConfirmed, TerminalConfirmed, Unconfirmed}
    case OwnedRequestedId =>
      {OwnedRequestedId, OwnedActualId, CancelPending,
       CleanupConfirmed, TerminalConfirmed, Unconfirmed}
    case OwnedActualId =>
      {OwnedActualId, CancelPending, CleanupConfirmed, TerminalConfirmed, Unconfirmed}
    case CancelPending =>
      {CancelPending, CleanupConfirmed, TerminalConfirmed, Unconfirmed}
    case Unconfirmed =>
      {Unconfirmed, OwnedRequestedId, OwnedActualId, CancelPending,
       CleanupConfirmed, TerminalConfirmed}
    case CleanupConfirmed => {CleanupConfirmed}
    case TerminalConfirmed => {TerminalConfirmed}
  }

  /** What every accepted transition guarantees about a record and its successor. */
  predicate Advances(current: Ownership, next: Ownership) {
    && next.Valid()
    && next.requested == current.requested
    && next.revision == current.revision + 1
    && current.updatedAt <= next.updatedAt
    && (current.actual.Some? ==> next.actual == current.actual)
    && (current.Confirmed() ==> next.state == current.state && next.certificate == current.certificate)
  }

  /**
   One compare-and-set transition. The caller passes the actual id and the
   certificate the next record is to carry; an unset argument is the current value.
   */
  function Transition(
    current: Ownership, expectedRevision: nat, state: State, updatedAt: nat,
    actual: Option<PromptId>, certificate: Option<Evidence>): (r: Result<Ownership, OwnershipError>)
    ensures r.Ok? && current.Valid() ==> Advances(current, r.value)
  {
    if expectedRevision != current.revision then Err(StaleRevision)
    else if state !in SuccessorStates(current.state) then Err(IllegalTransition)
    else if current.actual.Some? && actual != current.actual then Err(IllegalTransition)
    else if current.certificate.Some? && certificate != current.certificate then Err(IllegalTransition)
    else if updatedAt < current.updatedAt then Err(IllegalTransition)
    else
      var next := Ownership(current.requested, actual, state, current.revision + 1, certificate, updatedAt);
      if next.Valid() then Ok(next) else Err(IllegalEvidence)
  }

  // --- The transitions by where they lead --------------------------------

  /**
   Which states lead to `to`: a confirmed record never changes its state; nothing becomes
   prepared or submitting again; only an answer to a submission, however late, makes a
   prompt owned, and never the requested id after an actual one; whatever was submitted may
   be cancelled or released; and everything may become doubtful.
   */
  predicate LeadsTo(from: State, to: State) {
    || from == to
    || (from != CleanupConfirmed && from != TerminalConfirmed
        && match to
           case Prepared => false
           case Submitting => from == Prepared
           case OwnedRequestedId => from == Submitting || from == Unconfirmed
           case OwnedActualId => from == Submitting || from == OwnedRequestedId || from == Unconfirmed
           case CancelPending => from != Prepared
           case CleanupConfirmed => from != Prepared
           case TerminalConfirmed => from != Prepared
           case Unconfirmed => true)
  }

  lemma SuccessorsLeadThere(from: State, to: State)
    ensures to in SuccessorStates(from) <==> LeadsTo(from, to)
  {
  }

  /** Which ids and which evidence a record in this state may carry. */
  predicate Carries(requested: PromptId, state: State, actual: Option<PromptId>, certificate: Option<Evidence>) {
    && (state == Prepared || state == Submitting || state == OwnedRequestedId ==> actual == None)
    && (state == OwnedActualId ==> actual != None)
    && var effective := if actual == None then requested else actual.value;
       match certificate
       case None => state != CleanupConfirmed && state != TerminalConfirmed
       case Some(HistoryTerminal(id, _, _)) => state == TerminalConfirmed && id == effective
       case Some(ExactCancelConfirmed(id, _)) => state == CleanupConfirmed && id == effective
       case Some(EndpointRestart(id, _)) => state == CleanupConfirmed && id == effective
  }

  /**
   A transition is accepted exactly when it names the current revision, leads where it
   may, keeps a known id and a certificate, does not go back in time, and carries what its
   state requires; the record then holds exactly what it was given. A stale revision is
   reported before everything else.
   */
  lemma TransitionExactly(
    current: Ownership, expectedRevision: nat, state: State, updatedAt: nat,
    actual: Option<PromptId>, certificate: Option<Evidence>)
    ensures var r := Transition(current, expectedRevision, state, updatedAt, actual, certificate);
            && (r == Err(StaleRevision) <==> expectedRevision != current.revision)
            && (r.Ok? <==>
                  && expectedRevision == current.revision && LeadsTo(current.state, state) && current.updatedAt <= updatedAt
                  && (current.actual != None ==> actual == current.actual)
                  && (current.certificate != None ==> certificate == current.certificate)
                  && Carries(current.requested, state, actual, certificate))
            && (r.Ok? ==>
                  && r.value.requested == current.requested && r.value.actual == actual && r.value.state == state
                  && r.value.revision == current.revision + 1 && r.value.certificate == certificate
                  && r.value.updatedAt == updatedAt)
  {
    SuccessorsLeadThere(current.state, state);
  }
}
