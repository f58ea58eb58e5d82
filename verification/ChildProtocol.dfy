/**
 One child prompt under every actor at once: the dispatcher that posts it, user
 cancellation, the reconciler, restart recovery, the websocket sink, and a
 ComfyUI server that may delay, lose, rename, refuse or drop it.

 An event is one stretch of an actor between two awaits. A suspended actor is a
 task in `pending`, holding exactly the snapshot it took before it was suspended;
 tasks are never removed, so each may resume any number of times.
 */
module ChildProtocol {
  import opened Wrappers
  import opened PromptOwnership
  import opened ChildLedger

  // --- The server's side -------------------------------------------------

  /** Where the one POST of this child stands at the server. */
  datatype Place = NotSent | InTransit | Live | Gone

  /**
   `minted` is the id the server gives the prompt, chosen when the POST leaves.
   The other fields record what has happened to the prompt, and never revert.
   */
  datatype Server = Server(
    place: Place, minted: PromptId,
    history: Option<Status>, removed: bool, refused: bool, bootLost: bool)

  /** A prompt the server still runs, queues, or may yet queue. */
  predicate Alive(s: Server) {
    s.place.InTransit? || s.place.Live?
  }

  /**
   The dispatcher's side of the POST: intent not yet persisted, persisted but not
   sent, awaiting the response, holding a response whose different id is not yet
   recorded, and over.
   */
  datatype Poster = Unborn | Armed | Waiting | Rebinding | Retired

  datatype Task =
    | Listed(snap: Row)
    | CancelCalled(promptId: PromptId, revision: nat)
    | CancelAnswered(promptId: PromptId, revision: nat, confirmed: bool)
    | InlineAnswered(promptId: PromptId, confirmed: bool)
    | HistoryFound(snap: Row, status: Status)

  datatype Cell = Cell(
    kind: Kind, requested: PromptId, db: Durable,
    poster: Poster, server: Server, pending: set<Task>)

  function Fresh(kind: Kind, requested: PromptId): Cell {
    Cell(kind, requested, Durable(Row(Preparing, Preflight, None, 0), None, false),
         Unborn, Server(NotSent, requested, None, false, false, false), {})
  }

  // --- Events ------------------------------------------------------------

  datatype CancelActor = User | Dispatcher | Recovery

  datatype Event =
    // the dispatcher and its POST
    | Intend(at: nat)
    | Send(minted: PromptId)
    | ReplyAccepted(at: nat)
    | ReplyRejected
    | ReplyLost
    | InlineCancel(acts: bool, confirmed: bool)
    | Rebind(at: nat)
    | SettleInline(at: nat)
    | BindQueued
    | FailDependent(version: nat)
    // the server
    | Enqueue
    | Refuse
    | Finish(status: Status)
    | Drop
    | WebsocketProgress
    // listing a row before an await
    | ListRow
    // cancellation
    | CloseUnsubmitted(snap: Row, status: Status)
    | MarkDuringSubmit(snap: Row)
    | ClaimCancel(actor: CancelActor, snap: Row, stage: Stage, at: nat)
    | CancelReaches(promptId: PromptId, revision: nat, acts: bool, confirmed: bool)
    | SettleCancelled(promptId: PromptId, revision: nat, at: nat)
    | SettleUnconfirmed(promptId: PromptId, revision: nat, note: Option<Stage>, at: nat)
    // reconciliation
    | ReadHistory(snap: Row)
    | ApplyHistory(snap: Row, status: Status, byOwner: bool, usable: bool, at: nat)
    | Observe(observed: bool)
    | ApplyPlacement(snap: Row, status: Status, stage: Stage)
    | ApplyAbsence(snap: Row, byOwner: bool, at: nat)
    | Rotate(snap: Row)
    // restart
    | MarkInterrupted
    | StartupRecovery
    | RuntimeChanged(at: nat)
    | ConfirmRestart(at: nat)

  /** No POST of this child can still be sent or answered. */
  predicate Quiet(c: Cell) {
    c.poster.Unborn? || c.poster.Retired?
  }

  predicate Enqueued(s: Server) {
    s.place.Live? || (s.place.Gone? && !s.refused)
  }

  /** The stages a cancellation claim may write. */
  predicate ClaimStage(s: Stage) {
    s.CancelRequested? || s.CancellingAfterSubmit? || s.CancelFailed? || RecoveryOwned(s)
  }

  function Answer(c: Cell, promptId: PromptId, revision: nat, acts: bool, confirmed: bool): Cell {
    if CancelCalled(promptId, revision) !in c.pending || (confirmed && !acts)
       || (acts && !(c.server.place.Live? && c.server.minted == promptId))
    then c
    else
      c.(server := if acts then c.server.(place := Gone, removed := true) else c.server,
         pending := c.pending + {CancelAnswered(promptId, revision, confirmed)})
  }

  /**
   Claim cancellation: ownership moves to `cancel_pending`, unless it is that already or
   confirmed, the row to `cancelling`, and the actor suspends on the directed cancel of the
   effective id.
   A user request leaves a live submission to its dispatcher, judging by the row it
   listed; the dispatcher and recovery act only when no POST is outstanding.
   */
  function Claim(c: Cell, actor: CancelActor, snap: Row, stage: Stage, at: nat): Cell {
    if Listed(snap) !in c.pending || Terminal(snap.status) || snap.promptId.None?
       || (if actor.User? then SubmissionOwned(snap.stage) else !c.poster.Retired?)
       || c.db.own.None? || snap.promptId != Some(c.db.own.value.Effective())
       || Terminal(c.db.row.status) || !ClaimStage(stage)
    then c
    else
      var held := c.db.own.value.state.CancelPending? || c.db.own.value.Confirmed();
      var moved := if held then c.db else MoveOwnership(c.db, c.db.own.value.revision, CancelPending, at);
      if moved.own.None? || !(held || moved.own.value.state.CancelPending?) then c else
        c.(db := WriteActive(moved, Cancelling, stage),
           pending := c.pending + {CancelCalled(moved.own.value.Effective(), moved.own.value.revision)})
  }

  function Settle(c: Cell, promptId: PromptId, revision: nat, at: nat): Cell {
    if CancelAnswered(promptId, revision, true) !in c.pending then c else
      c.(db := ConfirmRelease(c.db, c.kind, revision, CleanupConfirmed,
                              ExactCancelConfirmed(promptId, at), Cancelled, at))
  }

  function Unsettle(c: Cell, promptId: PromptId, revision: nat, stage: Option<Stage>, at: nat): Cell {
    if CancelAnswered(promptId, revision, false) !in c.pending
       || c.db.own.None? || c.db.own.value.Confirmed()
       || (stage.Some? && !ClaimStage(stage.value))
    then c
    else
      var db := MoveOwnership(c.db, revision, Unconfirmed, at);
      c.(db := if stage.Some? then WriteActive(db, Cancelling, stage.value) else db)
  }

  /** Rows the reconciler may touch: the owner of a prompt may touch it once its POST is over. */
  predicate MayReconcile(c: Cell, snap: Row, byOwner: bool) {
    && !Terminal(snap.status) && snap.promptId.Some?
    && c.db.own.Some? && snap.promptId == Some(c.db.own.value.Effective())
    && (if byOwner then c.poster.Retired? else !ProcessOwned(snap.stage))
  }

  function CertifyHistory(c: Cell, snap: Row, status: Status, byOwner: bool, usable: bool, at: nat): Cell {
    if HistoryFound(snap, status) !in c.pending || !MayReconcile(c, snap, byOwner) then c else
      var own := c.db.own.value;
      var evidence := HistoryTerminal(own.Effective(), status, at);
      if status.Succeeded? && c.kind.Segment? then
        c.(db := if usable then RecordOutputReceipt(c.db, own.revision, evidence, at)
                 else FailSuccessfulHistory(c.db, own.revision, evidence, at))
      else
        c.(db := ConfirmRelease(c.db, c.kind, own.revision, TerminalConfirmed, evidence, status, at))
  }

  function MarkAbsent(c: Cell, snap: Row, byOwner: bool, at: nat): Cell {
    if Listed(snap) !in c.pending || !MayReconcile(c, snap, byOwner)
       || c.db.own.value.Confirmed() || c.db.own.value.state.Unconfirmed?
    then c
    else c.(db := MoveOwnership(c.db, c.db.own.value.revision, Unconfirmed, at))
  }

  /**
   The synchronous receipt hook inside the POST response. When it cannot record a
   different id, the dispatcher keeps the response until it has tried once more.
   */
  function Accept(c: Cell, at: nat): Cell {
    if !c.poster.Waiting? || !Enqueued(c.server) then c else
      var db := RecordReceipt(c.db, 0, c.server.minted, at);
      var bound := c.server.minted == c.requested
                   || (db.own.Some? && db.own.value.Effective() == c.server.minted);
      c.(db := db, poster := if bound then Retired else Rebinding)
  }

  /** The dispatcher's cancel of the id the response named, inside the same client lifetime. */
  function CancelInline(c: Cell, acts: bool, confirmed: bool): Cell {
    if !(c.poster.Retired? || c.poster.Rebinding?) || !Enqueued(c.server)
       || (confirmed && !acts) || (acts && !c.server.place.Live?)
    then c
    else
      c.(server := if acts then c.server.(place := Gone, removed := true) else c.server,
         pending := c.pending + {InlineAnswered(c.server.minted, confirmed)})
  }

  function BindFromError(c: Cell, at: nat): Cell {
    if !c.poster.Rebinding? then c
    else if c.db.own.None? then c.(poster := Retired)
    else c.(poster := Retired, db := RecordReceipt(c.db, c.db.own.value.revision, c.server.minted, at))
  }

  /** An inline acknowledgement settles the child only once its id is the durable one. */
  function AcknowledgeInline(c: Cell, at: nat): Cell {
    if !c.poster.Retired? || c.db.own.None?
       || InlineAnswered(c.db.own.value.Effective(), true) !in c.pending
    then c
    else
      c.(db := ConfirmRelease(c.db, c.kind, c.db.own.value.revision, CleanupConfirmed,
                              ExactCancelConfirmed(c.db.own.value.Effective(), at), Cancelled, at))
  }

  /** The server honours the requested id, or refuses the prompt, when its response is lost. */
  predicate MayVanish(c: Cell) {
    c.server.minted == c.requested || c.server.refused
  }

  /** The dispatcher of this child ends: nothing more is sent or recorded by it. */
  function Retire(c: Cell): Cell {
    if c.poster.Unborn? then c else c.(poster := Retired)
  }

  /** The failure finalizer closes whatever is still active, without looking at ownership. */
  function CloseByFinalizer(c: Cell, status: Status): Cell {
    c.(db := WriteActive(c.db, status, Closed))
  }

  /** A ComfyUI restart ends the boot that every persisted intent of this child names. */
  function Restarted(c: Cell): Cell {
    if c.db.own.None? then c else
      c.(server := c.server.(bootLost := true,
                             place := if Alive(c.server) then Gone else c.server.place))
  }

  /** The next cell. An event whose guard fails changes nothing. */
  function Step(c: Cell, e: Event): Cell {
    match e
    case Intend(at) =>
      if c.poster.Unborn? && c.db.row.status.Preparing? && c.db.row.promptId.None? && c.db.own.None?
      then c.(poster := Armed, db := PersistIntent(c.db, c.requested, at)) else c
    case Send(minted) =>
      if c.poster.Armed?
      then c.(poster := Waiting, server := c.server.(place := InTransit, minted := minted)) else c
    case ReplyAccepted(at) => Accept(c, at)
    case ReplyRejected =>
      if c.poster.Waiting? && c.server.refused
      then c.(poster := Retired, db := FailRejected(c.db, 0)) else c
    case ReplyLost =>
      // Environment: a lost response means the server honours the requested id.
      if c.poster.Waiting? && MayVanish(c) then c.(poster := Retired) else c
    case InlineCancel(acts, confirmed) => CancelInline(c, acts, confirmed)
    case Rebind(at) => BindFromError(c, at)
    case SettleInline(at) => AcknowledgeInline(c, at)
    case BindQueued =>
      if c.poster.Retired? && c.db.row.status.Preparing? && c.db.row.promptId == Some(c.server.minted)
      then c.(db := WriteRow(c.db, Queued, InQueue)) else c
    case FailDependent(version) => c.(db := FailDependency(c.db, version))
    case Enqueue =>
      if c.server.place.InTransit? then c.(server := c.server.(place := Live)) else c
    case Refuse =>
      if c.server.place.InTransit? then c.(server := c.server.(place := Gone, refused := true)) else c
    case Finish(status) =>
      if c.server.place.Live? && Terminal(status)
      then c.(server := c.server.(place := Gone, history := Some(status))) else c
    case Drop =>
      if c.server.place.Live? then c.(server := c.server.(place := Gone, removed := true)) else c
    case WebsocketProgress =>
      if Enqueued(c.server) && c.db.row.promptId == Some(c.server.minted)
         && (c.db.row.status.Queued? || c.db.row.status.Running?
             || (c.db.row.status.Preparing? && c.db.row.stage.Submitting?))
      then c.(db := WriteRow(c.db, Running, Informational)) else c
    case ListRow => c.(pending := c.pending + {Listed(c.db.row)})
    case CloseUnsubmitted(snap, status) =>
      if Listed(snap) in c.pending && !Terminal(snap.status) && snap.promptId.None?
         && (status.Failed? || status.Cancelled?)
      then c.(db := CasRow(c.db, snap, status, Closed)) else c
    case MarkDuringSubmit(snap) =>
      if Listed(snap) in c.pending && SubmissionOwned(snap.stage) && snap.promptId.Some?
      then c.(db := WriteActive(c.db, Cancelling, CancellingDuringSubmit)) else c
    case ClaimCancel(actor, snap, stage, at) => Claim(c, actor, snap, stage, at)
    case CancelReaches(promptId, revision, acts, confirmed) => Answer(c, promptId, revision, acts, confirmed)
    case SettleCancelled(promptId, revision, at) => Settle(c, promptId, revision, at)
    case SettleUnconfirmed(promptId, revision, note, at) => Unsettle(c, promptId, revision, note, at)
    case ReadHistory(snap) =>
      if Listed(snap) in c.pending && snap.promptId == Some(c.server.minted)
         && c.server.history.Some? && !c.server.bootLost
      then c.(pending := c.pending + {HistoryFound(snap, c.server.history.value)}) else c
    case ApplyHistory(snap, status, byOwner, usable, at) => CertifyHistory(c, snap, status, byOwner, usable, at)
    case Observe(observed) => c.(db := FinishObservation(c.db, observed))
    case ApplyPlacement(snap, status, stage) =>
      if Listed(snap) in c.pending && !Terminal(snap.status) && snap.promptId.Some? && !ProcessOwned(snap.stage)
         && (status.Queued? || status.Running? || status.Cancelling?) && !SubmissionOwned(stage)
      then c.(db := CasRow(c.db, snap, status, stage)) else c
    case ApplyAbsence(snap, byOwner, at) => MarkAbsent(c, snap, byOwner, at)
    case Rotate(snap) =>
      if Listed(snap) in c.pending && !Terminal(snap.status)
      then c.(db := CasRow(c.db, snap, snap.status, snap.stage)) else c
    case MarkInterrupted =>
      if c.poster.Retired? && c.db.row.promptId.Some?
      then c.(db := WriteActive(c.db, Cancelling, SubmissionInterrupted)) else c
    case StartupRecovery =>
      if !Quiet(c) then c
      else if c.db.row.promptId.Some? then c.(db := WriteActive(c.db, Cancelling, RestartCancelPending))
      else c.(db := WriteActive(c.db, Cancelled, Closed))
    case RuntimeChanged(at) =>
      if c.server.bootLost && c.db.own.Some? && !c.db.own.value.Confirmed()
      then c.(db := WriteActive(MoveOwnership(c.db, c.db.own.value.revision, Unconfirmed, at),
                                Cancelling, RestartCertificateRequired))
      else c
    case ConfirmRestart(at) =>
      if c.server.bootLost && c.db.own.Some? && !c.db.own.value.Confirmed()
         && !Terminal(c.db.row.status) && RestartOwned(c.db.row.stage)
      then c.(db := ConfirmRelease(c.db, c.kind, c.db.own.value.revision, CleanupConfirmed,
                                   EndpointRestart(c.db.own.value.Effective(), at), Cancelled, at))
      else c
  }

  // --- What every reachable cell satisfies -------------------------------

  /** The effective id can no longer change. */
  predicate IdFixed(c: Cell) {
    c.poster.Retired? || (c.poster.Waiting? && c.server.minted == c.requested)
  }

  /** A certificate says only what happened to the very prompt it names. */
  predicate Truthful(c: Cell, evidence: Evidence) {
    match evidence
    case HistoryTerminal(id, status, _) => id == c.server.minted && c.server.history == Some(status)
    case ExactCancelConfirmed(id, _) => id == c.server.minted && c.server.removed
    case EndpointRestart(_, _) => c.server.bootLost
  }

  predicate ServerInv(c: Cell) {
    var s := c.server;
    && (s.place.NotSent? ==> s.history.None? && !s.removed && !s.refused)
    && (s.place.InTransit? || s.place.Live? ==> s.history.None? && !s.removed && !s.refused && !s.bootLost)
    && (s.refused ==> s.history.None? && !s.removed)
    && (s.bootLost ==> Quiet(c) && c.db.own.Some?)
    && (c.poster.Unborn? || c.poster.Armed? ==> s.place.NotSent?)
    && (c.poster.Waiting? ==> !s.place.NotSent?)
    && (c.poster.Rebinding? ==> Enqueued(s) && s.minted != c.requested)
    && (s.history.Some? ==> Terminal(s.history.value))
  }

  predicate UnownedInv(c: Cell) {
    c.db.own.None? ==>
      && c.db.row.promptId.None? && !c.db.receipt
      && (|| (c.poster.Unborn? && c.server.place.NotSent?)
          || (c.poster.Retired? && c.server.place.Gone? && c.server.refused && Terminal(c.db.row.status)))
  }

  predicate OwnedInv(c: Cell) {
    c.db.own.Some? ==>
      var own := c.db.own.value;
      && own.Valid() && own.requested == c.requested && !own.state.Prepared?
      && c.db.row.promptId == Some(own.Effective())
      && !c.poster.Unborn?
      && (!c.poster.Retired? ==> own.actual.None?)
      && (!c.poster.Retired? && !IdFixed(c) ==>
            own.state.Submitting? && own.revision == 0
            && SubmissionOwned(c.db.row.stage) && !Terminal(c.db.row.status))
      && (own.actual.Some? ==> own.actual.value == c.server.minted)
      && (own.Confirmed() ==>
            && !Alive(c.server) && !c.poster.Armed?
            && Truthful(c, own.certificate.value))
      && (own.Confirmed() && !Terminal(c.db.row.status) ==> c.db.receipt)
      && (c.db.receipt ==> own.Confirmed() && own.certificate.value.HistoryTerminal?
                           && own.certificate.value.status.Succeeded?)
  }

  predicate TerminalInv(c: Cell) {
    && (Terminal(c.db.row.status) ==> c.db.row.stage.Closed?)
    && (Terminal(c.db.row.status) && c.db.own.Some? ==> c.db.own.value.Confirmed())
    && (c.db.row.status.Succeeded? ==>
          && c.db.own.Some? && c.db.own.value.Confirmed()
          && c.db.own.value.certificate.Some?
          && c.db.own.value.certificate.value.HistoryTerminal?
          && c.db.own.value.certificate.value.status.Succeeded?
          && (c.kind.Segment? ==> c.db.receipt))
  }

  predicate CellInv(c: Cell) {
    ServerInv(c) && UnownedInv(c) && OwnedInv(c) && TerminalInv(c)
  }

  /** A listed row is some past version of the current one. */
  predicate PastRow(c: Cell, snap: Row) {
    && snap.version <= c.db.row.version
    && (snap.version == c.db.row.version ==> snap == c.db.row)
    && (snap.promptId.Some? && !SubmissionOwned(snap.stage) ==> IdFixed(c))
  }

  predicate CalledOk(c: Cell, promptId: PromptId) {
    IdFixed(c) && (c.db.own.Some? ==> c.db.own.value.Effective() == promptId)
  }

  predicate TaskInv(c: Cell, t: Task) {
    match t
    case Listed(snap) => PastRow(c, snap)
    case CancelCalled(promptId, _) => CalledOk(c, promptId)
    case CancelAnswered(promptId, _, confirmed) =>
      CalledOk(c, promptId)
      && (confirmed ==> c.server.place.Gone? && c.server.removed && c.server.minted == promptId)
    case InlineAnswered(promptId, confirmed) =>
      !c.server.place.NotSent? && c.server.minted == promptId
      && (confirmed ==> c.server.place.Gone? && c.server.removed)
    case HistoryFound(snap, status) =>
      PastRow(c, snap) && snap.promptId == Some(c.server.minted)
      && c.server.place.Gone? && c.server.history == Some(status)
  }

  predicate Inv(c: Cell) {
    CellInv(c) && forall t | t in c.pending :: TaskInv(c, t)
  }

  /** What no step ever takes back. */
  predicate Later(c: Cell, c': Cell) {
    && c'.kind == c.kind && c'.requested == c.requested
    && c.db.row.version <= c'.db.row.version
    && (c.db.row.version == c'.db.row.version ==> c'.db.row == c.db.row)
    && (Terminal(c.db.row.status) ==> c'.db.row.status == c.db.row.status)
    && (c.db.own.Some? ==>
          || (c'.db.own.None? && c'.server.refused)
          || (c'.db.own.Some?
              && (c.db.own.value.Confirmed() ==>
                    c'.db.own.value.state == c.db.own.value.state
                    && c'.db.own.value.certificate == c.db.own.value.certificate)
              && (IdFixed(c) ==> c'.db.own.value.Effective() == c.db.own.value.Effective())))
    && (c.db.own.None? && c'.db.own.Some? ==> c.poster.Unborn?)
    && (IdFixed(c) ==> IdFixed(c'))
    && (!c.server.place.NotSent? ==> !c'.server.place.NotSent? && c'.server.minted == c.server.minted)
    && (c.server.place.Gone? ==> c'.server.place.Gone?)
    && (c.server.history.Some? ==> c'.server.history == c.server.history)
    && (c.server.removed ==> c'.server.removed)
    && (c.server.refused ==> c'.server.refused)
    && (c.server.bootLost ==> c'.server.bootLost)
  }

  /** Every suspended actor's snapshot stays meaningful while others run. */
  lemma TasksSurvive(c: Cell, c': Cell, t: Task)
    requires CellInv(c) && CellInv(c') && Later(c, c') && TaskInv(c, t)
    ensures TaskInv(c', t)
  {
  }
}
