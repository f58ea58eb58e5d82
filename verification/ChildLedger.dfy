/**
 The durable half of one timeline child: its lifecycle row, its prompt ownership
 record and its output receipt, with the database's atomic conditional updates.
 */
module ChildLedger {
  import opened Wrappers
  import opened PromptOwnership

  datatype Stage =
    | Preflight | Submitting | CancellingDuringSubmit | InQueue | Informational
    | CancelRequested | CancelFailed | CancellingAfterSubmit | SubmissionInterrupted
    | SubmissionCancelPending | SubmissionCancelFailed | SubmissionCancelUnconfirmed
    | RestartCancelPending | RestartCancelFailed | RestartCancelUnconfirmed
    | RestartCertificateRequired | VerifyingOutput | Closed

  predicate SubmissionOwned(s: Stage) {
    s.Submitting? || s.CancellingDuringSubmit?
  }

  predicate RestartOwned(s: Stage) {
    s.RestartCancelPending? || s.RestartCancelFailed? || s.RestartCancelUnconfirmed?
    || s.RestartCertificateRequired?
  }

  predicate RecoveryOwned(s: Stage) {
    s.SubmissionCancelPending? || s.SubmissionCancelFailed? || s.SubmissionCancelUnconfirmed?
    || RestartOwned(s)
  }

  predicate ProcessOwned(s: Stage) {
    SubmissionOwned(s) || RecoveryOwned(s)
  }

  /** A lifecycle row. `version` stands for `updated_at`, which every write renews. */
  datatype Row = Row(status: Status, stage: Stage, promptId: Option<PromptId>, version: nat)

  datatype Kind = Segment | Control

  datatype Durable = Durable(row: Row, own: Option<Ownership>, receipt: bool)

  function WriteRow(d: Durable, status: Status, stage: Stage): Durable {
    d.(row := Row(status, stage, d.row.promptId, d.row.version + 1))
  }

  /** The row compare-and-set: the write lands only while the listed row is current. */
  function CasRow(d: Durable, snap: Row, status: Status, stage: Stage): Durable {
    if d.row.status == snap.status && d.row.version == snap.version
    then WriteRow(d, status, stage) else d
  }

  /** Write a nonterminal row, as a retry loop over the row compare-and-set does. */
  function WriteActive(d: Durable, status: Status, stage: Stage): Durable {
    if Terminal(d.row.status) then d else WriteRow(d, status, stage)
  }

  function PersistIntent(d: Durable, requested: PromptId, at: nat): Durable {
    if d.row.status.Preparing? && d.row.promptId.None? && d.own.None? then
      Durable(
        Row(Preparing, Stage.Submitting, Some(requested), d.row.version + 1),
        Some(Ownership(requested, None, State.Submitting, 0, None, at)),
        d.receipt)
    else d
  }

  /** Revision-checked change to an unreleased ownership state. */
  function MoveOwnership(d: Durable, revision: nat, state: State, at: nat): Durable {
    if d.own.None? || ConfirmedState(state) then d else
      match Transition(d.own.value, revision, state, at, d.own.value.actual, d.own.value.certificate)
      case Ok(next) => d.(own := Some(next))
      case Err(_) => d
  }

  /** Bind the id ComfyUI returned, and project it onto the row. */
  function RecordReceipt(d: Durable, revision: nat, actual: PromptId, at: nat): Durable {
    if d.own.None? || d.row.promptId != Some(d.own.value.Effective()) then d else
      var own := d.own.value;
      var normalized := if actual == own.requested then None else Some(actual);
      var state := if actual == own.requested then OwnedRequestedId else OwnedActualId;
      match Transition(own, revision, state, at, normalized, own.certificate)
      case Ok(next) =>
        d.(own := Some(next),
           row := d.row.(promptId := Some(next.Effective()), version := d.row.version + 1))
      case Err(_) => d
  }

  predicate EvidenceFits(state: State, evidence: Evidence, status: Status) {
    match evidence
    case HistoryTerminal(_, s, _) => state.TerminalConfirmed? && status == s
    case _ => state.CleanupConfirmed? && status.Cancelled?
  }

  /** Settle ownership and lifecycle in one transaction, from structured evidence. */
  function ConfirmRelease(
    d: Durable, kind: Kind, revision: nat, state: State, evidence: Evidence, status: Status, at: nat): Durable
  {
    if d.own.None? || d.row.promptId != Some(d.own.value.Effective()) then d
    else if status.Succeeded? && kind.Segment? then d
    else if Terminal(d.row.status) && d.row.status != status then d
    else if !Terminal(status) || !EvidenceFits(state, evidence, status) then d
    else
      match Transition(d.own.value, revision, state, at, d.own.value.actual, Some(evidence))
      case Ok(next) => WriteRow(d, status, Closed).(own := Some(next))
      case Err(_) => d
  }

  /** Exact successful history of a segment: ownership ends, the row awaits its probe. */
  function RecordOutputReceipt(d: Durable, revision: nat, evidence: Evidence, at: nat): Durable {
    if d.own.None? || d.receipt || Terminal(d.row.status)
       || d.row.promptId != Some(d.own.value.Effective())
       || !evidence.HistoryTerminal? || !evidence.status.Succeeded?
    then d
    else
      match Transition(d.own.value, revision, TerminalConfirmed, at, d.own.value.actual, Some(evidence))
      case Ok(next) => WriteRow(d, Running, VerifyingOutput).(own := Some(next), receipt := true)
      case Err(_) => d
  }

  /** Successful history whose output descriptor is unusable: released, but failed. */
  function FailSuccessfulHistory(d: Durable, revision: nat, evidence: Evidence, at: nat): Durable {
    if d.own.None? || Terminal(d.row.status)
       || d.row.promptId != Some(d.own.value.Effective())
       || !evidence.HistoryTerminal? || !evidence.status.Succeeded?
    then d
    else
      match Transition(d.own.value, revision, TerminalConfirmed, at, d.own.value.actual, Some(evidence))
      case Ok(next) => WriteRow(d, Failed, Closed).(own := Some(next))
      case Err(_) => d
  }

  /** Publish or fail the host probe of a recorded output. */
  function FinishObservation(d: Durable, observed: bool): Durable {
    if d.receipt && !Terminal(d.row.status)
    then WriteRow(d, if observed then Succeeded else Failed, Closed) else d
  }

  /** A definite pre-queue rejection erases the prewritten intent. */
  function FailRejected(d: Durable, revision: nat): Durable {
    if d.own.Some? && d.own.value.revision == revision && d.own.value.state.Submitting?
       && d.own.value.actual.None? && d.row.status.Preparing?
       && d.row.promptId == Some(d.own.value.requested)
    then Durable(Row(Failed, Closed, None, d.row.version + 1), None, d.receipt)
    else d
  }

  /** Fail an unsubmitted dependent; the update is conditional on the null prompt id. */
  function FailDependency(d: Durable, version: nat): Durable {
    if d.row.status.Preparing? && d.row.promptId.None? && d.row.version == version
    then WriteRow(d, Failed, Closed) else d
  }

  // --- What each guarded write does, exactly -----------------------------

  /** The durable record can be released by this evidence, for the prompt it owns and at this time. */
  predicate Releasable(d: Durable, revision: nat, state: State, evidence: Evidence, at: nat) {
    && d.own != None && d.row.promptId == Some(d.own.value.Effective())
    && d.own.value.revision == revision && LeadsTo(d.own.value.state, state) && d.own.value.updatedAt <= at
    && (d.own.value.certificate == None || d.own.value.certificate == Some(evidence))
    && evidence.promptId == d.own.value.Effective()
    && (if evidence.HistoryTerminal? then state == TerminalConfirmed else state == CleanupConfirmed)
  }

  /** The record after its release: the ownership holds the evidence, the row the status. */
  predicate ReleasedAs(d: Durable, after: Durable, state: State, evidence: Evidence, status: Status, stage: Stage) {
    && d.own != None && after.own != None
    && after.own.value.state == state && after.own.value.certificate == Some(evidence)
    && after.own.value.requested == d.own.value.requested && after.own.value.actual == d.own.value.actual
    && after.row.status == status && after.row.stage == stage && after.row.promptId == d.row.promptId
    && after.row.version > d.row.version
  }

  lemma CertifiedTransition(own: Ownership, revision: nat, state: State, evidence: Evidence, at: nat)
    requires own.Valid()
    ensures Transition(own, revision, state, at, own.actual, Some(evidence)).Ok? <==>
              && own.revision == revision && LeadsTo(own.state, state) && own.updatedAt <= at
              && (own.certificate == None || own.certificate == Some(evidence))
              && evidence.promptId == own.Effective()
              && (if evidence.HistoryTerminal? then state == TerminalConfirmed else state == CleanupConfirmed)
  {
    TransitionExactly(own, revision, state, at, own.actual, Some(evidence));
  }

  /**
   A release is written exactly when the evidence releases this record and the status is
   the one it proves: a history its own status, anything else a cancellation. A row that
   ended differently and a segment's success are never written this way.
   */
  lemma ReleaseExactly(
    d: Durable, kind: Kind, revision: nat, state: State, evidence: Evidence, status: Status, at: nat)
    requires d.own != None ==> d.own.value.Valid()
    ensures var after := ConfirmRelease(d, kind, revision, state, evidence, status, at);
            var proven := && Releasable(d, revision, state, evidence, at)
                          && status in {Succeeded, Failed, Cancelled}
                          && (if evidence.HistoryTerminal? then status == evidence.status else status == Cancelled)
                          && !(status == Succeeded && kind == Kind.Segment)
                          && (d.row.status in {Succeeded, Failed, Cancelled} ==> d.row.status == status);
            && (proven ==> ReleasedAs(d, after, state, evidence, status, Closed) && after.receipt == d.receipt)
            && (!proven ==> after == d)
  {
    if d.own.Some? { CertifiedTransition(d.own.value, revision, state, evidence, at); }
  }

  /** An output is recorded, and its row left to the probe, exactly for a successful history of an active row without one. */
  lemma OutputReceiptExactly(d: Durable, revision: nat, evidence: Evidence, at: nat)
    requires d.own != None ==> d.own.value.Valid()
    ensures var after := RecordOutputReceipt(d, revision, evidence, at);
            var proven := && evidence.HistoryTerminal? && evidence.status == Succeeded
                          && Releasable(d, revision, TerminalConfirmed, evidence, at)
                          && !d.receipt && d.row.status !in {Succeeded, Failed, Cancelled};
            && (proven ==> ReleasedAs(d, after, TerminalConfirmed, evidence, Running, VerifyingOutput) && after.receipt)
            && (!proven ==> after == d)
  {
    if d.own.Some? { CertifiedTransition(d.own.value, revision, TerminalConfirmed, evidence, at); }
  }

  /** A successful history without a usable output fails the child exactly while it is active. */
  lemma FailedHistoryExactly(d: Durable, revision: nat, evidence: Evidence, at: nat)
    requires d.own != None ==> d.own.value.Valid()
    ensures var after := FailSuccessfulHistory(d, revision, evidence, at);
            var proven := && evidence.HistoryTerminal? && evidence.status == Succeeded
                          && Releasable(d, revision, TerminalConfirmed, evidence, at)
                          && d.row.status !in {Succeeded, Failed, Cancelled};
            && (proven ==> ReleasedAs(d, after, TerminalConfirmed, evidence, Failed, Closed) && after.receipt == d.receipt)
            && (!proven ==> after == d)
  {
    if d.own.Some? { CertifiedTransition(d.own.value, revision, TerminalConfirmed, evidence, at); }
  }

  /** What a response records: the requested id as such, any other id as the actual one, projected onto the row. */
  lemma ReceiptExactly(d: Durable, revision: nat, actual: PromptId, at: nat)
    requires d.own != None && d.own.value.Valid() && d.own.value.certificate == None && d.own.value.actual == None
    requires d.row.promptId == Some(d.own.value.requested)
    ensures var after := RecordReceipt(d, revision, actual, at);
            var own := d.own.value;
            var target := if actual == own.requested then OwnedRequestedId else OwnedActualId;
            var due := own.revision == revision && LeadsTo(own.state, target) && own.updatedAt <= at;
            && (due ==>
                  && after.own != None && after.own.value.state == target && after.own.value.certificate == None
                  && after.own.value.Effective() == actual && (actual == own.requested ==> after.own.value.actual == None)
                  && after.row.promptId == Some(actual) && after.row.status == d.row.status && after.row.stage == d.row.stage)
            && (!due ==> after == d)
  {
    var own := d.own.value;
    var normalized := if actual == own.requested then None else Some(actual);
    var target := if actual == own.requested then OwnedRequestedId else OwnedActualId;
    TransitionExactly(own, revision, target, at, normalized, None);
  }
}
