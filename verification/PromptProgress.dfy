/**
 What the child protocol can always do: from which states each actor's moves end a child,
 and how. The invariants of `PromptRuns` say that nothing wrong ever happens; these say
 that the right thing does.
 */
module PromptProgress {
  import opened Wrappers
  import opened PromptOwnership
  import opened ChildLedger
  import opened ChildProtocol
  import opened ChildInvariants
  import opened PromptRuns

  /**
   A renamed prompt is recorded exactly when the clock has not moved backwards
   since the intent: the response then binds the id the server really minted.
   */
  lemma RenamedPromptIsBound(c: Cell, at: nat)
    requires Inv(c) && c.poster.Waiting? && Enqueued(c.server) && c.server.minted != c.requested
    ensures c.db.own.Some? && Step(c, ReplyAccepted(at)).db.own.Some?
    ensures Step(c, ReplyAccepted(at)).db.own.value.Effective() == c.server.minted
            <==> c.db.own.value.updatedAt <= at
  {
  }

  // --- Cancelling a live prompt ------------------------------------------

  /** A prompt in ComfyUI's queue or running, known by the id it really has. */
  predicate Targetable(c: Cell, at: nat) {
    && Inv(c) && c.server.place.Live? && c.db.own.Some?
    && c.db.own.value.Effective() == c.server.minted && c.db.own.value.updatedAt <= at
  }

  /** The user leaves a submission to its dispatcher; cleanup and recovery wait until the POST is over. */
  predicate MayClaim(c: Cell, actor: CancelActor) {
    if actor.User? then !SubmissionOwned(c.db.row.stage) else c.poster.Retired?
  }

  /** Who may cancel a live prompt always can, and the others change nothing. */
  lemma ClaimSucceeds(c: Cell, actor: CancelActor, stage: Stage, at: nat)
    requires Targetable(c, at) && ClaimStage(stage)
    ensures var listed := Step(c, ListRow);
            var claimed := Step(listed, ClaimCancel(actor, c.db.row, stage, at));
            && (!MayClaim(c, actor) ==> claimed == listed)
            && (MayClaim(c, actor) ==>
                  && Targetable(claimed, at) && claimed.db.own.value.state.CancelPending?
                  && CancelCalled(c.server.minted, claimed.db.own.value.revision) in claimed.pending
                  && claimed.server == c.server && claimed.poster == c.poster
                  && claimed.db.row.status == Cancelling && claimed.db.row.stage == stage)
  {
    var listed := Step(c, ListRow);
    StepKeeps(c, ListRow);
    StepKeeps(listed, ClaimCancel(actor, c.db.row, stage, at));
  }

  /**
   A claim stands on the ownership record: an earlier claim is taken over as it is, whatever
   the clock says, and a claim the record cannot take, because its time has gone back,
   changes nothing.
   */
  lemma ClaimNeedsOwnership(c: Cell, actor: CancelActor, stage: Stage, at: nat)
    requires Inv(c) && c.server.place.Live? && c.db.own.Some? && MayClaim(c, actor) && ClaimStage(stage)
    ensures var listed := Step(c, ListRow);
            var claimed := Step(listed, ClaimCancel(actor, c.db.row, stage, at));
            && (c.db.own.value.state.CancelPending? ==>
                  && claimed.db.own == c.db.own && claimed.db.row.status == Cancelling && claimed.db.row.stage == stage
                  && CancelCalled(c.db.own.value.Effective(), c.db.own.value.revision) in claimed.pending)
            && (!c.db.own.value.state.CancelPending? && at < c.db.own.value.updatedAt ==> claimed == listed)
  {
  }

  /** A cancel that comes while the output is being probed takes nothing back: the probe still decides. */
  lemma LateClaimLeavesProbe(c: Cell, actor: CancelActor, stage: Stage, at: nat, observed: bool)
    requires Inv(c) && Released(c) && !Terminal(c.db.row.status) && ClaimStage(stage)
    ensures var claimed := Step(Step(c, ListRow), ClaimCancel(actor, c.db.row, stage, at));
            && claimed.db.own == c.db.own && claimed.server == c.server
            && Step(claimed, Observe(observed)).db.row.status == (if observed then Succeeded else Failed)
  {
  }

  lemma AnswerSettles(c: Cell, at: nat)
    requires Targetable(c, at) && c.db.own.value.state.CancelPending?
    requires CancelCalled(c.server.minted, c.db.own.value.revision) in c.pending
    ensures var revision := c.db.own.value.revision;
            var answered := Step(c, CancelReaches(c.server.minted, revision, true, true));
            var settled := Step(answered, SettleCancelled(c.server.minted, revision, at));
            && settled.db.row.status.Cancelled? && Released(settled)
            && settled.db.own.value.certificate == Some(ExactCancelConfirmed(c.server.minted, at))
  {
  }

  /**
   The protocol is never stuck on a live prompt: whatever ambiguity earlier actors left
   behind, a user, cleanup or recovery that may claim it, lists the row, claims it and
   reaches the server with the directed cancel ends the child as cancelled with a cancel
   certificate.
   */
  lemma DirectedCancelFinishes(c: Cell, actor: CancelActor, stage: Stage, at: nat)
    requires Targetable(c, at) && MayClaim(c, actor) && ClaimStage(stage)
    ensures exists revision ::
              var claimed := Step(Step(c, ListRow), ClaimCancel(actor, c.db.row, stage, at));
              var answered := Step(claimed, CancelReaches(c.server.minted, revision, true, true));
              var settled := Step(answered, SettleCancelled(c.server.minted, revision, at));
              && settled.db.row.status.Cancelled? && Released(settled)
              && settled.db.own.value.certificate == Some(ExactCancelConfirmed(c.server.minted, at))
  {
    ClaimSucceeds(c, actor, stage, at);
    var claimed := Step(Step(c, ListRow), ClaimCancel(actor, c.db.row, stage, at));
    AnswerSettles(claimed, at);
    var revision := claimed.db.own.value.revision;
    var answered := Step(claimed, CancelReaches(c.server.minted, revision, true, true));
    assert Step(answered, SettleCancelled(c.server.minted, revision, at)).db.row.status.Cancelled?;
  }

  /** A directed cancel that ComfyUI does not confirm. */
  function Unanswered(c: Cell, acts: bool, note: Option<Stage>, at: nat): Cell
    requires c.db.own.Some?
  {
    var revision := c.db.own.value.revision;
    Step(Step(c, CancelReaches(c.server.minted, revision, acts, false)),
         SettleUnconfirmed(c.server.minted, revision, note, at))
  }

  /**
   A cancel that is not confirmed is never forgotten: the child stays active, its ownership
   unconfirmed, the error noted. If the prompt still lives it can be cancelled again.
   */
  lemma UnconfirmedCancelIsKept(c: Cell, acts: bool, note: Option<Stage>, at: nat)
    requires Targetable(c, at) && c.db.own.value.state.CancelPending?
    requires CancelCalled(c.server.minted, c.db.own.value.revision) in c.pending
    requires note.Some? ==> ClaimStage(note.value)
    ensures var end := Unanswered(c, acts, note, at);
            && end.db.own.Some? && end.db.own.value.state.Unconfirmed? && !Terminal(end.db.row.status)
            && (note.Some? ==> end.db.row.status == Cancelling && end.db.row.stage == note.value)
            && (note.None? ==> end.db.row == c.db.row)
            && end.poster == c.poster
            && (if acts then end.server.place.Gone? && end.server.removed else Targetable(end, at))
  {
    var revision := c.db.own.value.revision;
    var answered := Step(c, CancelReaches(c.server.minted, revision, acts, false));
    StepKeeps(c, CancelReaches(c.server.minted, revision, acts, false));
    StepKeeps(answered, SettleUnconfirmed(c.server.minted, revision, note, at));
  }

  /**
   A user who cancels while the POST is out takes nothing out of the dispatcher's hands:
   the request is written into the row, and nothing else changes. From any other stage
   the mark is not made.
   */
  lemma UserMarksSubmission(c: Cell)
    requires Inv(c) && c.db.own.Some? && !Released(c)
    ensures var listed := Step(c, ListRow);
            var marked := Step(listed, MarkDuringSubmit(c.db.row));
            && (!SubmissionOwned(c.db.row.stage) ==> marked == listed)
            && (SubmissionOwned(c.db.row.stage) ==>
                  && marked.db.row.status == Cancelling && marked.db.row.stage == CancellingDuringSubmit
                  && marked == listed.(db := listed.db.(row := marked.db.row))
                  && marked.db.row.promptId == c.db.row.promptId)
  {
  }

  /** The mark survives the response, and the dispatcher then finds a prompt it may cancel. */
  lemma MarkedSubmissionIsCancellable(c: Cell, at: nat)
    requires Inv(c) && c.poster.Waiting? && c.server.place.Live? && c.server.minted == c.requested
    requires c.db.own.Some? && !Released(c) && c.db.own.value.updatedAt <= at && SubmissionOwned(c.db.row.stage)
    ensures var marked := Step(Step(c, ListRow), MarkDuringSubmit(c.db.row));
            var replied := Step(marked, ReplyAccepted(at));
            && Targetable(replied, at) && MayClaim(replied, Dispatcher)
            && replied.db.row.status == Cancelling && replied.db.row.stage == CancellingDuringSubmit
            && Step(replied, BindQueued) == replied
  {
    var listed := Step(c, ListRow);
    var marked := Step(listed, MarkDuringSubmit(c.db.row));
    StepKeeps(c, ListRow);
    StepKeeps(listed, MarkDuringSubmit(c.db.row));
    StepKeeps(marked, ReplyAccepted(at));
  }

  // --- Reconciling a finished prompt -------------------------------------

  /** A prompt that was posted, accepted and ran, known by the id it really has. */
  predicate Finished(c: Cell, status: Status, at: nat) {
    && c.server.history == Some(status) && !c.server.bootLost
    && c.db.own.Some? && !c.db.own.value.Confirmed()
    && c.db.own.value.Effective() == c.server.minted && c.db.own.value.updatedAt <= at
  }

  /** The row a finished prompt earns: a successful segment also needs a usable, observed output. */
  function Earned(kind: Kind, status: Status, usable: bool, observed: bool): Status {
    if status.Succeeded? && kind.Segment? && !(usable && observed) then Failed else status
  }

  /** The owner of a prompt waits until its POST is over; the others leave owned rows alone. */
  predicate MaySettle(c: Cell, byOwner: bool) {
    if byOwner then c.poster.Retired? else !ProcessOwned(c.db.row.stage)
  }

  /** An actor lists the row, reads the exact history, applies it and probes the output. */
  function Reconciled(c: Cell, byOwner: bool, status: Status, usable: bool, observed: bool, at: nat): Cell {
    var read := Step(Step(c, ListRow), ReadHistory(c.db.row));
    Step(Step(read, ApplyHistory(c.db.row, status, byOwner, usable, at)), Observe(observed))
  }

  /**
   The protocol is never stuck on a finished prompt either: from every state that earlier
   actors can leave, one reconciliation by anyone who may settle it ends the child with
   exactly the status its history and output earn, under a certificate of that history.
   One that may not settle it writes nothing.
   */
  lemma FinishedPromptIsSettled(
    c: Cell, byOwner: bool, status: Status, usable: bool, observed: bool, at: nat)
    requires Inv(c) && Finished(c, status, at)
    ensures var end := Reconciled(c, byOwner, status, usable, observed, at);
            && (MaySettle(c, byOwner) ==>
                  && end.db.row.status == Earned(c.kind, status, usable, observed)
                  && end.db.own.Some?
                  && end.db.own.value.certificate == Some(HistoryTerminal(c.server.minted, status, at))
                  && (end.db.receipt <==> c.kind.Segment? && status.Succeeded? && usable))
            && (!MaySettle(c, byOwner) ==> end.db == c.db)
  {
    StepKeeps(c, ListRow);
    var listed := Step(c, ListRow);
    assert Listed(c.db.row) in listed.pending;
    StepKeeps(listed, ReadHistory(c.db.row));
    var read := Step(listed, ReadHistory(c.db.row));
    assert HistoryFound(c.db.row, status) in read.pending;
    AppliedHistory(read, byOwner, status, usable, at);
  }

  lemma AppliedHistory(c: Cell, byOwner: bool, status: Status, usable: bool, at: nat)
    requires Inv(c) && Finished(c, status, at) && HistoryFound(c.db.row, status) in c.pending
    ensures !MaySettle(c, byOwner) ==> Step(c, ApplyHistory(c.db.row, status, byOwner, usable, at)) == c
    ensures MaySettle(c, byOwner) ==>
            var applied := Step(c, ApplyHistory(c.db.row, status, byOwner, usable, at));
            && applied.db.own.Some?
            && applied.db.own.value.certificate == Some(HistoryTerminal(c.server.minted, status, at))
            && (applied.db.receipt <==> c.kind.Segment? && status.Succeeded? && usable)
            && applied.db.row.status == if status.Succeeded? && c.kind.Segment?
                                        then (if usable then Running else Failed) else status
  {
  }

  /** A child's whole POST: intent, send, queue admission, response. */
  function PostedCell(kind: Kind, requested: PromptId, minted: PromptId, from: nat, to: nat): Cell {
    var sent := Step(Step(Fresh(kind, requested), Intend(from)), Send(minted));
    Step(Step(sent, Enqueue), ReplyAccepted(to))
  }

  /** The POST as the dispatcher leaves it when the server honours the requested id. */
  function QueuedCell(kind: Kind, id: PromptId, from: nat, to: nat): Cell {
    Step(PostedCell(kind, id, id, from, to), BindQueued)
  }

  lemma QueuedIsBound(kind: Kind, id: PromptId, from: nat, to: nat)
    requires from <= to
    ensures var c := QueuedCell(kind, id, from, to);
            && Targetable(c, to) && c.kind == kind && c.poster.Retired? && c.server.minted == id && !c.server.bootLost
            && !Released(c) && c.db.row.status == Queued && c.db.row.stage == InQueue
  {
    PostedIsBound(kind, id, id, from, to);
    StepKeeps(PostedCell(kind, id, id, from, to), BindQueued);
  }

  /**
   When the server honours the requested id, the child is shown queued, then running, and
   reaches exactly the end its prompt earns, whoever reconciles it.
   */
  lemma UndisturbedChildFinishes(
    kind: Kind, id: PromptId, byOwner: bool, status: Status, usable: bool, observed: bool, from: nat, to: nat)
    requires from <= to && Terminal(status)
    ensures var queued := QueuedCell(kind, id, from, to);
            var running := Step(queued, WebsocketProgress);
            var end := Reconciled(Step(running, Finish(status)), byOwner, status, usable, observed, to);
            && queued.db.row.status == Queued && queued.db.row.stage == InQueue
            && running.db.row.status == Running && running.db.row.stage == Informational
            && end.db.row.status == Earned(kind, status, usable, observed)
            && end.db.row.promptId == Some(id)
            && end.db.own.Some? && end.db.own.value.certificate == Some(HistoryTerminal(id, status, to))
  {
    QueuedIsBound(kind, id, from, to);
    var queued := QueuedCell(kind, id, from, to);
    ProgressKeepsTarget(queued, to);
    var running := Step(queued, WebsocketProgress);
    LiveFinishes(running, status, to);
    var finished := Step(running, Finish(status));
    FinishedPromptIsSettled(finished, byOwner, status, usable, observed, to);
    ReconciledKeeps(finished, byOwner, status, usable, observed, to);
  }

  lemma ProgressKeepsTarget(c: Cell, at: nat)
    requires Targetable(c, at) && c.db.row.status == Queued && c.db.row.stage == InQueue && c.poster.Retired?
    ensures var running := Step(c, WebsocketProgress);
            && Targetable(running, at) && running.db.row.status == Running && running.db.row.stage == Informational
            && running.poster == c.poster && running.server == c.server && running.kind == c.kind
            && running.db.row.promptId == c.db.row.promptId && running.db.own == c.db.own
  {
    StepKeeps(c, WebsocketProgress);
  }

  /** A live prompt that ends is a finished one. */
  lemma LiveFinishes(c: Cell, status: Status, at: nat)
    requires Targetable(c, at) && Terminal(status)
    ensures var finished := Step(c, Finish(status));
            && Inv(finished) && Finished(finished, status, at) && finished.db == c.db
            && finished.poster == c.poster && finished.kind == c.kind && finished.server.minted == c.server.minted
  {
    StepKeeps(c, Finish(status));
  }

  /** What the client and the dispatcher do with a response naming another id: cancel it inline, bind it, settle. */
  function CancelledInline(c: Cell, acts: bool, confirmed: bool, at: nat): Cell {
    Step(Step(Step(c, InlineCancel(acts, confirmed)), Rebind(at)), SettleInline(at))
  }

  /**
   A renamed prompt is never left to run: acknowledged, its inline cancel ends the child
   as cancelled under a certificate that names the id the server minted, also when the
   receipt could not be recorded at first because the clock had moved backwards.
   */
  lemma RenamedChildIsCancelled(kind: Kind, requested: PromptId, minted: PromptId, from: nat, to: nat, at: nat)
    requires minted != requested && from <= at && to <= at
    ensures var end := CancelledInline(PostedCell(kind, requested, minted, from, to), true, true, at);
            && end.db.row.status.Cancelled? && end.db.row.promptId == Some(minted)
            && end.db.own.Some? && end.db.own.value.certificate == Some(ExactCancelConfirmed(minted, at))
            && !Alive(end.server)
  {
  }

  /**
   Unacknowledged, the child stays owned and active under the minted id. If the cancel did
   not take effect it can still be cancelled by cleanup or recovery, or be settled by the
   history of whatever end the prompt comes to.
   */
  lemma RenamedChildStaysOwned(
    kind: Kind, requested: PromptId, minted: PromptId, from: nat, to: nat, at: nat, acts: bool, status: Status)
    requires minted != requested && from <= at && to <= at && Terminal(status)
    ensures var c := CancelledInline(PostedCell(kind, requested, minted, from, to), acts, false, at);
            && Inv(c) && c.db.own.Some? && !Released(c) && !Terminal(c.db.row.status)
            && c.db.own.value.Effective() == minted
            && (acts ==> !Alive(c.server) && c.server.history.None?)
            && c.poster.Retired?
            && (!acts ==> Targetable(c, at) && Finished(Step(c, Finish(status)), status, at))
  {
    var posted := PostedCell(kind, requested, minted, from, to);
    PostedKeeps(kind, requested, minted, from, to);
    InlineAttemptKeeps(posted, acts, false, at);
    UnansweredIsBound(kind, requested, minted, from, to, at, acts);
    UnreleasedIsActive(Step(Step(posted, InlineCancel(acts, false)), Rebind(at)), SettleInline(at));
    var c := CancelledInline(posted, acts, false, at);
    if !acts { LiveFinishes(c, status, at); }
  }

  lemma InlineAttemptKeeps(c: Cell, acts: bool, confirmed: bool, at: nat)
    requires Inv(c)
    ensures Inv(Step(Step(c, InlineCancel(acts, confirmed)), Rebind(at))) && Inv(CancelledInline(c, acts, confirmed, at))
  {
    var answered := Step(c, InlineCancel(acts, confirmed));
    StepKeeps(c, InlineCancel(acts, confirmed));
    StepKeeps(answered, Rebind(at));
    StepKeeps(Step(answered, Rebind(at)), SettleInline(at));
  }

  lemma UnansweredIsBound(
    kind: Kind, requested: PromptId, minted: PromptId, from: nat, to: nat, at: nat, acts: bool)
    requires minted != requested && from <= at && to <= at
    ensures var c := CancelledInline(PostedCell(kind, requested, minted, from, to), acts, false, at);
            && c.poster.Retired? && c.server.minted == minted && !c.server.bootLost && c.server.history.None?
            && c.server.place == (if acts then Gone else Live)
            && c.db.own.Some? && !Released(c) && c.db.own.value.Effective() == minted && c.db.own.value.updatedAt <= at
  {
  }

  lemma ReadingKeeps(c: Cell)
    requires Inv(c)
    ensures var read := Step(Step(c, ListRow), ReadHistory(c.db.row)); Inv(read) && read.server == c.server
  {
    StepKeeps(c, ListRow);
    StepKeeps(Step(c, ListRow), ReadHistory(c.db.row));
  }

  lemma ApplyingKeeps(c: Cell, snap: Row, byOwner: bool, status: Status, usable: bool, observed: bool, at: nat)
    requires Inv(c)
    ensures var end := Step(Step(c, ApplyHistory(snap, status, byOwner, usable, at)), Observe(observed));
            Inv(end) && end.server == c.server
  {
    StepKeeps(c, ApplyHistory(snap, status, byOwner, usable, at));
    StepKeeps(Step(c, ApplyHistory(snap, status, byOwner, usable, at)), Observe(observed));
  }

  lemma ReconciledKeeps(c: Cell, byOwner: bool, status: Status, usable: bool, observed: bool, at: nat)
    requires Inv(c)
    ensures Inv(Reconciled(c, byOwner, status, usable, observed, at))
    ensures Reconciled(c, byOwner, status, usable, observed, at).server == c.server
  {
    ReadingKeeps(c);
    ApplyingKeeps(Step(Step(c, ListRow), ReadHistory(c.db.row)), c.db.row, byOwner, status, usable, observed, at);
  }

  lemma PostedKeeps(kind: Kind, requested: PromptId, minted: PromptId, from: nat, to: nat)
    ensures Inv(PostedCell(kind, requested, minted, from, to))
  {
    FreshOk(kind, requested);
    StepKeeps(Fresh(kind, requested), Intend(from));
    var armed := Step(Fresh(kind, requested), Intend(from));
    StepKeeps(armed, Send(minted));
    var sent := Step(armed, Send(minted));
    StepKeeps(sent, Enqueue);
    StepKeeps(Step(sent, Enqueue), ReplyAccepted(to));
  }

  lemma PostedIsBound(kind: Kind, requested: PromptId, minted: PromptId, from: nat, to: nat)
    requires from <= to
    ensures var c := PostedCell(kind, requested, minted, from, to);
            && Inv(c) && c.kind == kind && c.poster.Retired? && c.server.place.Live? && c.server.minted == minted
            && !c.server.bootLost && c.db.own.Some? && !c.db.own.value.Confirmed()
            && c.db.own.value.Effective() == minted && c.db.own.value.updatedAt <= to
            && (minted == requested ==> c.db.own.value.state == OwnedRequestedId && c.db.own.value.actual == None)
            && (minted != requested ==> c.db.own.value.state == OwnedActualId && c.db.own.value.actual == Some(minted))
  {
    PostedKeeps(kind, requested, minted, from, to);
  }

  // --- A POST that fails -------------------------------------------------

  /** The intent as it was persisted: no claim, no doubt, no request to cancel. */
  predicate Untouched(c: Cell) {
    c.db.own.Some? && c.db.own.value.state.Submitting? && c.db.own.value.revision == 0 && c.db.row.status.Preparing?
  }

  /**
   A refused prompt is erased exactly while nobody has touched its intent: the child fails
   with no prompt id left. Otherwise its ownership stays for cleanup.
   */
  lemma RejectionErasesIntent(c: Cell)
    requires Inv(c) && c.poster.Waiting? && c.server.refused
    ensures var end := Step(c, ReplyRejected);
            && end.poster.Retired? && !Alive(end.server)
            && (Untouched(c) ==> end.db.own.None? && end.db.row.status == Failed && end.db.row.promptId.None?)
            && (!Untouched(c) ==> end.db == c.db)
  {
  }

  /** A prompt that was refused before the queue leaves a failed child that owns nothing. */
  lemma RefusedChildFails(kind: Kind, requested: PromptId, minted: PromptId, at: nat)
    ensures var sent := Step(Step(Fresh(kind, requested), Intend(at)), Send(minted));
            var end := Step(Step(sent, Refuse), ReplyRejected);
            && end.db.row.status == Failed && end.db.row.promptId.None? && end.db.own.None? && !Alive(end.server)
  {
  }

  /** A lost response leaves the prompt to cleanup and recovery, under the id it was asked for. */
  lemma LostReplyStaysCancellable(c: Cell, at: nat)
    requires Inv(c) && c.poster.Waiting? && c.server.place.Live? && c.server.minted == c.requested
    requires c.db.own.Some? && c.db.own.value.updatedAt <= at
    ensures var lost := Step(c, ReplyLost);
            && lost.db == c.db && Targetable(lost, at) && MayClaim(lost, Dispatcher) && MayClaim(lost, Recovery)
  {
    StepKeeps(c, ReplyLost);
  }

  // --- Rows that must not move -------------------------------------------

  /** A row that was written since it was listed is not overwritten from the listing. */
  lemma StaleListingIsInert(c: Cell, snap: Row, status: Status, stage: Stage)
    requires snap.version != c.db.row.version
    ensures Step(c, ApplyPlacement(snap, status, stage)) == c
    ensures Step(c, CloseUnsubmitted(snap, status)) == c
    ensures Step(c, Rotate(snap)) == c
  {
  }

  /** Rotating a row makes every older listing of it stale, and changes nothing else. */
  lemma RotationOvertakes(c: Cell)
    requires Inv(c) && !Terminal(c.db.row.status)
    ensures var rotated := Step(Step(c, ListRow), Rotate(c.db.row));
            && rotated.db == c.db.(row := c.db.row.(version := rotated.db.row.version))
            && rotated.db.row.version > c.db.row.version
  {
  }

  /** A child is closed from a listing exactly while it has no prompt id and has not ended. */
  lemma UnsubmittedIsClosed(c: Cell, status: Status)
    requires status.Failed? || status.Cancelled?
    ensures var end := Step(Step(c, ListRow), CloseUnsubmitted(c.db.row, status));
            && (c.db.row.promptId.None? && !Terminal(c.db.row.status) ==>
                  end.db.row.status == status && end.db.row.stage == Closed)
            && (c.db.row.promptId.Some? || Terminal(c.db.row.status) ==> end.db == c.db)
            && end.db.own == c.db.own && end.db.row.promptId == c.db.row.promptId
  {
  }

  /** A dependent is failed exactly while it is provably unsubmitted. */
  lemma DependentFailsUnsubmitted(c: Cell)
    requires Inv(c)
    ensures var end := Step(c, FailDependent(c.db.row.version));
            && (c.db.row.status.Preparing? && c.db.row.promptId.None? ==> end.db.row.status == Failed)
            && (!c.db.row.status.Preparing? || c.db.row.promptId.Some? ==> end == c)
            && end.db.own == c.db.own
    ensures forall version | version != c.db.row.version :: Step(c, FailDependent(version)) == c
  {
  }

  /**
   Progress messages show a queued or submitted child as running; they never revive a
   child that is being cancelled or has ended, and never touch ownership.
   */
  lemma ProgressShowsRunning(c: Cell)
    requires Inv(c) && Enqueued(c.server) && c.db.row.promptId == Some(c.server.minted)
    ensures var shown := Step(c, WebsocketProgress);
            && (c.db.row.status.Queued? || c.db.row.status.Running? ==>
                  shown.db.row.status == Running && shown.db.row.stage == Informational && shown != c)
            && (c.db.row.status.Preparing? && c.db.row.stage == Stage.Submitting ==> shown.db.row.status == Running)
            && (c.db.row.status.Preparing? && c.db.row.stage != Stage.Submitting ==> shown == c)
            && (c.db.row.status.Cancelling? || Terminal(c.db.row.status) ==> shown == c)
            && shown == c.(db := c.db.(row := shown.db.row)) && shown.db.row.promptId == c.db.row.promptId
  {
  }

  /** What the queue shows is written from a fresh listing, unless a process owns the row. */
  lemma PlacementIsShown(c: Cell, status: Status, stage: Stage)
    requires Inv(c) && !Terminal(c.db.row.status) && c.db.row.promptId.Some?
    requires (status.Queued? || status.Running? || status.Cancelling?) && !SubmissionOwned(stage)
    ensures var shown := Step(Step(c, ListRow), ApplyPlacement(c.db.row, status, stage));
            && (ProcessOwned(c.db.row.stage) ==> shown.db == c.db)
            && (!ProcessOwned(c.db.row.stage) ==> shown.db.row.status == status && shown.db.row.stage == stage)
            && shown.db.own == c.db.own && shown.db.row.promptId == c.db.row.promptId
  {
  }

  /** An absence only makes the ownership doubtful: the row stays, and a live prompt can still be cancelled. */
  lemma AbsenceOnlyDoubts(c: Cell, byOwner: bool, at: nat)
    requires Inv(c) && c.db.own.Some? && !Released(c) && c.db.own.value.updatedAt <= at
    ensures var doubted := Step(Step(c, ListRow), ApplyAbsence(c.db.row, byOwner, at));
            && doubted.db.row == c.db.row && doubted.server == c.server && doubted.db.own.Some?
            && (MaySettle(c, byOwner) ==> doubted.db.own.value.state.Unconfirmed?)
            && (!MaySettle(c, byOwner) || c.db.own.value.state.Unconfirmed? ==> doubted.db == c.db)
            && (Targetable(c, at) ==> Targetable(doubted, at))
  {
    StepKeeps(c, ListRow);
    StepKeeps(Step(c, ListRow), ApplyAbsence(c.db.row, byOwner, at));
  }

  /** A prompt ComfyUI drops leaves its child owned: nothing was recorded, and no later cancel can be acknowledged for it. */
  lemma DroppedPromptStaysOwned(c: Cell, at: nat, revision: nat)
    requires Targetable(c, at)
    ensures var dropped := Step(c, Drop);
            && dropped.db == c.db && !Alive(dropped.server) && dropped.server.removed && dropped.server.history.None?
            && Step(dropped, CancelReaches(c.server.minted, revision, true, true)) == dropped
  {
  }

  /** An event of an actor that just listed this row, or needs no listing, other than a settlement already under way. */
  predicate ActsOnListing(e: Event, row: Row) {
    match e
    case ClaimCancel(_, snap, _, _) => snap == row
    case CloseUnsubmitted(snap, _) => snap == row
    case MarkDuringSubmit(snap) => snap == row
    case ApplyHistory(snap, _, _, _, _) => snap == row
    case ApplyPlacement(snap, _, _) => snap == row
    case ApplyAbsence(snap, _, _) => snap == row
    case Rotate(snap) => snap == row
    case SettleCancelled(_, _, _) => false
    case SettleInline(_) => false
    case ReplyAccepted(_) => false
    case Rebind(_) => false
    case _ => true
  }

  predicate HasListing(e: Event) {
    e.ClaimCancel? || e.CloseUnsubmitted? || e.MarkDuringSubmit? || e.ApplyHistory? || e.ApplyPlacement? || e.ApplyAbsence?
    || e.Rotate?
  }

  lemma EndedIgnoresListings(c: Cell, e: Event)
    requires Terminal(c.db.row.status) && HasListing(e) && ActsOnListing(e, c.db.row)
    ensures Step(c, e).db == c.db
  {
  }

  lemma EndedIgnoresOthers(c: Cell, e: Event)
    requires Inv(c) && Terminal(c.db.row.status) && !HasListing(e) && ActsOnListing(e, c.db.row)
    ensures Step(c, e).db == c.db
  {
  }

  /** Whoever lists an ended child, or acts without listing it, writes nothing. */
  lemma EndedChildIsLeftAlone(c: Cell, e: Event)
    requires Inv(c) && Terminal(c.db.row.status) && ActsOnListing(e, c.db.row)
    ensures Step(Step(c, ListRow), e).db == c.db
  {
    StepKeeps(c, ListRow);
    if HasListing(e) { EndedIgnoresListings(Step(c, ListRow), e); } else { EndedIgnoresOthers(Step(c, ListRow), e); }
  }

  // --- Restarts ----------------------------------------------------------

  /** An interrupted dispatcher leaves its submitted children to be cancelled. */
  lemma InterruptionIsMarked(c: Cell)
    requires Inv(c) && c.poster.Retired? && c.db.row.promptId.Some? && !Terminal(c.db.row.status)
    ensures var marked := Step(c, MarkInterrupted);
            && marked.db.row.status == Cancelling && marked.db.row.stage == SubmissionInterrupted
            && marked == c.(db := c.db.(row := marked.db.row)) && marked.db.row.promptId == c.db.row.promptId
  {
  }

  /** After a restart of the director recovery takes over what was submitted and cancels the rest. */
  lemma StartupTakesOver(c: Cell, at: nat)
    requires Inv(c) && Quiet(c)
    ensures var taken := Step(c, StartupRecovery);
            && (Terminal(c.db.row.status) ==> taken == c)
            && (!Terminal(c.db.row.status) && c.db.own.Some? ==>
                  && taken.db.row.status == Cancelling && taken.db.row.stage == RestartCancelPending
                  && taken.db.own == c.db.own && taken.server == c.server
                  && (Targetable(c, at) ==> Targetable(taken, at) && MayClaim(taken, Recovery)))
            && (!Terminal(c.db.row.status) && c.db.own.None? ==>
                  taken.db.row.status == Cancelled && taken.db.row.stage == Closed)
  {
    StepKeeps(c, StartupRecovery);
  }

  /** A prompt of a lost boot is marked, and a confirmed restart then ends its child. */
  lemma LostBootIsReleased(c: Cell, at: nat)
    requires Inv(c) && c.server.bootLost && c.db.own.Some? && !Released(c) && c.db.own.value.updatedAt <= at
    ensures var marked := Step(c, RuntimeChanged(at));
            var end := Step(marked, ConfirmRestart(at));
            && marked.db.row.status == Cancelling && marked.db.row.stage == RestartCertificateRequired
            && marked.db.own.Some? && marked.db.own.value.state.Unconfirmed?
            && end.db.row.status == Cancelled && Released(end)
            && end.db.own.value.certificate == Some(EndpointRestart(c.db.own.value.Effective(), at))
  {
    StepKeeps(c, RuntimeChanged(at));
  }

  /** A restart of ComfyUI loses the boot of whatever was owned and ends the prompts it was holding; the ledger stays. */
  lemma RestartLosesBoot(c: Cell)
    ensures var lost := Restarted(c);
            && lost.db == c.db && lost.poster == c.poster
            && (c.db.own.None? ==> lost == c)
            && (c.db.own.Some? ==>
                  && lost.server.bootLost && !Alive(lost.server)
                  && (!Alive(c.server) ==> lost.server.place == c.server.place)
                  && lost.server.history == c.server.history && lost.server.removed == c.server.removed)
  {
  }

  /** Without a restart of ComfyUI neither step does anything. */
  lemma LivingBootIsLeftAlone(c: Cell, at: nat)
    requires !c.server.bootLost
    ensures Step(c, RuntimeChanged(at)) == c && Step(c, ConfirmRestart(at)) == c
  {
  }

  // --- Whole jobs --------------------------------------------------------

  /** What startup, a confirmed restart and the probe of a recorded output do to one child. */
  function RecoveryMoves(k: ChildId, at: nat, observed: bool): seq<Move> {
    [On(k, StartupRecovery), On(k, RuntimeChanged(at)), On(k, ConfirmRestart(at)), On(k, Observe(observed))]
  }

  /** The same moves on the child alone. */
  function Recovered(c: Cell, at: nat, observed: bool): Cell {
    Step(Step(Step(Step(c, StartupRecovery), RuntimeChanged(at)), ConfirmRestart(at)), Observe(observed))
  }

  lemma RecoveryKeeps(c: Cell, at: nat, observed: bool)
    requires Inv(c)
    ensures Inv(Recovered(c, at, observed))
  {
    var taken := Step(c, StartupRecovery);
    StepKeeps(c, StartupRecovery);
    StepKeeps(taken, RuntimeChanged(at));
    StepKeeps(Step(taken, RuntimeChanged(at)), ConfirmRestart(at));
    StepKeeps(Step(Step(taken, RuntimeChanged(at)), ConfirmRestart(at)), Observe(observed));
  }

  lemma LostChildEnds(c: Cell, at: nat, observed: bool)
    requires Inv(c) && Quiet(c) && (c.db.own.Some? ==> c.server.bootLost && c.db.own.value.updatedAt <= at)
    ensures Terminal(Recovered(c, at, observed).db.row.status)
  {
    var taken := Step(c, StartupRecovery);
    StepKeeps(c, StartupRecovery);
    StartupTakesOver(c, at);
    if c.db.own.Some? && !Released(c) {
      LostBootIsReleased(taken, at);
    } else {
      ReleasedChildEnds(taken, at, observed);
    }
  }

  lemma ReleasedChildEnds(c: Cell, at: nat, observed: bool)
    requires Terminal(c.db.row.status) || (Inv(c) && c.db.own.Some? && Released(c))
    ensures Terminal(Step(Step(Step(c, RuntimeChanged(at)), ConfirmRestart(at)), Observe(observed)).db.row.status)
  {
  }

  /** A child of a job whose ComfyUI was restarted is ended by startup and a confirmed restart, whatever happened to it. */
  lemma RestartedChildEnds(w: World, k: ChildId, at: nat, observed: bool)
    requires WorldInv(w) && k in w.cells
    requires w.cells[k].db.own.Some? ==> w.cells[k].db.own.value.updatedAt <= at
    ensures var end := Run(Next(w, ServerRestart), RecoveryMoves(k, at, observed));
            && k in end.cells && Terminal(end.cells[k].db.row.status) && Settled(end.cells[k])
  {
    var lost := Next(w, ServerRestart);
    RestartCellKeeps(w.cells[k]);
    var c := lost.cells[k];
    assert c == Restarted(Forget(w.cells[k], true));
    LostChildEnds(c, at, observed);
    RecoveryKeeps(c, at, observed);
    RunsOneChild(lost, k, at, observed);
  }

  lemma RunsOneChild(w: World, k: ChildId, at: nat, observed: bool)
    requires k in w.cells && w.director.Exited?
    ensures var end := Run(w, RecoveryMoves(k, at, observed));
            k in end.cells && end.cells[k] == Recovered(w.cells[k], at, observed)
  {
    var moves := RecoveryMoves(k, at, observed);
    var a := Next(w, moves[0]);
    var b := Next(a, moves[1]);
    var d := Next(b, moves[2]);
    var e := Next(d, moves[3]);
    assert moves[1..][1..] == [moves[2], moves[3]] && [moves[2], moves[3]][1..] == [moves[3]] && [moves[3]][1..] == [];
    assert Run(e, []) == e;
    assert Run(d, [moves[3]]) == e;
    assert Run(b, [moves[2], moves[3]]) == e;
    assert Run(a, moves[1..]) == e;
  }

  /** The dispatcher of this child has nothing under way, and its record is as it was. */
  predicate LetGo(before: Cell, after: Cell) {
    after.db == before.db && after.server == before.server && Quiet(after)
  }

  /**
   A cleanup begins only between two POSTs, lets every child go, and has to check exactly
   the children that were submitted and have not ended; nothing is uncertain yet.
   */
  lemma CleanupTargetsSubmitted(w: World, k: ChildId)
    requires w.director.Driving? && k in w.cells
    ensures var t := Next(w, BeginCleanup);
            && ((exists j :: j in w.cells && Posting(w.cells[j])) ==> t == w)
            && ((forall j | j in w.cells :: !Posting(w.cells[j])) ==>
                  && t.director.Cleaning? && t.director.certain && t.cells.Keys == w.cells.Keys
                  && (k in t.director.todo <==> w.cells[k].db.row.promptId != None && !Terminal(w.cells[k].db.row.status))
                  && LetGo(w.cells[k], t.cells[k]) && t.cells[k].pending == w.cells[k].pending)
  {
  }

  /**
   A dispatcher leaves between two POSTs, and may crash whenever no renamed prompt would
   lose its response; either way it lets every child go. A crash of the whole director also
   loses every suspended actor.
   */
  lemma DispatcherEnds(w: World, k: ChildId)
    requires k in w.cells
    ensures w.director.Driving? && (exists j :: j in w.cells && Posting(w.cells[j])) ==> Next(w, Leave) == w
    ensures !w.director.Driving? || (forall j | j in w.cells :: !Posting(w.cells[j])) ==>
              Next(w, Leave).director.Exited? && k in Next(w, Leave).cells && LetGo(w.cells[k], Next(w, Leave).cells[k])
    ensures (forall j | j in w.cells && w.cells[j].poster.Waiting? :: MayVanish(w.cells[j])) ==>
              forall forgets ::
                var t := Next(w, Crash(forgets));
                && t.director.Exited? && k in t.cells && LetGo(w.cells[k], t.cells[k])
                && t.cells[k].pending == if forgets then {} else w.cells[k].pending
  {
  }

  ghost predicate TargetsReleased(w: World) {
    w.director.Cleaning? && forall k | k in w.director.todo :: k in w.cells && Released(w.cells[k])
  }

  /** A cleanup that released all its targets can check them off and finalize, which ends every child. */
  lemma {:induction false} CertainCleanupFinishes(w: World, status: Status) returns (moves: seq<Move>)
    requires WorldInv(w) && TargetsReleased(w) && w.director.certain && (status.Failed? || status.Cancelled?)
    ensures var end := Run(w, moves);
            && end.director.Exited? && end.cells.Keys == w.cells.Keys
            && forall k | k in w.cells :: end.cells[k] == CloseByFinalizer(w.cells[k], status)
    decreases w.director.todo
  {
    if w.director.todo == {} {
      moves := [Finalize(status)];
      assert moves[1..] == [] && Run(Next(w, moves[0]), []) == Next(w, moves[0]);
    } else {
      var k :| k in w.director.todo;
      CheckTargetKeeps(w, k);
      var rest := CertainCleanupFinishes(Next(w, CheckTarget(k)), status);
      moves := [CheckTarget(k)] + rest;
      assert moves[1..] == rest;
    }
  }

  /** One target found unreleased is enough: the cleanup stays uncertain, and never finalizes. */
  lemma UncertainCleanupNeverFinalizes(w: World, k: ChildId, status: Status)
    requires w.director.Cleaning? && k in w.director.todo && k in w.cells
    ensures !Released(w.cells[k]) ==>
              var checked := Next(w, CheckTarget(k));
              checked.director.Cleaning? && !checked.director.certain && checked.cells == w.cells
    ensures Next(w, Finalize(status)) == w
    ensures !w.director.certain ==>
              var checked := Next(w, CheckTarget(k));
              checked.director.Cleaning? && !checked.director.certain && Next(checked, Finalize(status)) == checked
  {
  }
}
