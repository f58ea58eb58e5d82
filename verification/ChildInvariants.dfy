/** Each event of the child protocol keeps the cell invariant and only moves forward. */
module ChildInvariants {
  import opened Wrappers
  import opened PromptOwnership
  import opened ChildLedger
  import opened ChildProtocol

  predicate Keeps(c: Cell, c': Cell) {
    CellInv(c') && Later(c, c')
  }

  lemma FreshOk(kind: Kind, requested: PromptId)
    ensures Inv(Fresh(kind, requested))
  {
  }

  lemma IntendKeeps(c: Cell, at: nat)
    requires Inv(c)
    ensures Keeps(c, Step(c, Intend(at)))
  {
  }

  lemma SendKeeps(c: Cell, minted: PromptId)
    requires Inv(c)
    ensures Keeps(c, Step(c, Send(minted)))
  {
  }

  lemma AcceptKeeps(c: Cell, at: nat)
    requires Inv(c)
    ensures Keeps(c, Step(c, ReplyAccepted(at)))
  {
  }

  lemma InlineKeeps(c: Cell, e: Event)
    requires Inv(c)
    requires e.InlineCancel? || e.Rebind? || e.SettleInline?
    ensures Keeps(c, Step(c, e))
  {
    if e.SettleInline? && c.db.own.Some? && InlineAnswered(c.db.own.value.Effective(), true) in c.pending {
      assert TaskInv(c, InlineAnswered(c.db.own.value.Effective(), true));
    }
  }

  lemma RejectKeeps(c: Cell)
    requires Inv(c)
    ensures Keeps(c, Step(c, ReplyRejected))
  {
  }

  lemma ServerKeeps(c: Cell, e: Event)
    requires Inv(c)
    requires e.ReplyLost? || e.BindQueued? || e.FailDependent? || e.Enqueue? || e.Refuse? || e.Finish? || e.Drop?
             || e.WebsocketProgress? || e.ListRow?
    ensures Keeps(c, Step(c, e))
  {
  }

  lemma CloseKeeps(c: Cell, snap: Row, status: Status)
    requires Inv(c)
    ensures Keeps(c, Step(c, CloseUnsubmitted(snap, status)))
  {
    if Listed(snap) in c.pending { assert TaskInv(c, Listed(snap)); }
  }

  lemma FirstClaimMovesForward(c: Cell, actor: CancelActor, snap: Row, stage: Stage, at: nat)
    requires Inv(c) && (c.db.own.Some? ==> !c.db.own.value.state.CancelPending?)
    ensures Later(c, Claim(c, actor, snap, stage, at))
  {
  }

  lemma RepeatedClaimMovesForward(c: Cell, actor: CancelActor, snap: Row, stage: Stage, at: nat)
    requires Inv(c) && c.db.own.Some? && c.db.own.value.state.CancelPending?
    ensures Later(c, Claim(c, actor, snap, stage, at))
  {
  }

  lemma FirstClaimIsTruthful(c: Cell, actor: CancelActor, snap: Row, stage: Stage, at: nat)
    requires Inv(c) && (c.db.own.Some? ==> !c.db.own.value.state.CancelPending?)
    ensures CellInv(Claim(c, actor, snap, stage, at))
  {
    if Listed(snap) in c.pending { assert TaskInv(c, Listed(snap)); }
  }

  lemma RepeatedClaimIsTruthful(c: Cell, actor: CancelActor, snap: Row, stage: Stage, at: nat)
    requires Inv(c) && c.db.own.Some? && c.db.own.value.state.CancelPending?
    ensures CellInv(Claim(c, actor, snap, stage, at))
  {
    if Listed(snap) in c.pending { assert TaskInv(c, Listed(snap)); }
  }

  /** A claim written from a stale snapshot, by any actor. */
  lemma ClaimKeeps(c: Cell, actor: CancelActor, snap: Row, stage: Stage, at: nat)
    requires Inv(c)
    ensures Keeps(c, Claim(c, actor, snap, stage, at))
  {
    if c.db.own.Some? && c.db.own.value.state.CancelPending? {
      RepeatedClaimMovesForward(c, actor, snap, stage, at);
      RepeatedClaimIsTruthful(c, actor, snap, stage, at);
    } else {
      FirstClaimMovesForward(c, actor, snap, stage, at);
      FirstClaimIsTruthful(c, actor, snap, stage, at);
    }
  }

  lemma AnswerKeeps(c: Cell, id: PromptId, rev: nat, acts: bool, confirmed: bool)
    requires Inv(c)
    ensures Keeps(c, Answer(c, id, rev, acts, confirmed))
  {
    if CancelCalled(id, rev) in c.pending { assert TaskInv(c, CancelCalled(id, rev)); }
  }

  lemma SettleKeeps(c: Cell, id: PromptId, rev: nat, at: nat)
    requires Inv(c)
    ensures Keeps(c, Settle(c, id, rev, at))
  {
    if CancelAnswered(id, rev, true) in c.pending { assert TaskInv(c, CancelAnswered(id, rev, true)); }
  }

  lemma UnsettleKeeps(c: Cell, id: PromptId, rev: nat, note: Option<Stage>, at: nat)
    requires Inv(c)
    ensures Keeps(c, Unsettle(c, id, rev, note, at))
  {
    if CancelAnswered(id, rev, false) in c.pending { assert TaskInv(c, CancelAnswered(id, rev, false)); }
  }

  lemma HistoryKeeps(c: Cell, snap: Row, status: Status, byOwner: bool, usable: bool, at: nat)
    requires Inv(c)
    ensures Keeps(c, CertifyHistory(c, snap, status, byOwner, usable, at))
  {
    if HistoryFound(snap, status) in c.pending { assert TaskInv(c, HistoryFound(snap, status)); }
  }

  lemma ReadKeeps(c: Cell, e: Event)
    requires Inv(c) && (e.ReadHistory? || e.Observe?)
    ensures Keeps(c, Step(c, e))
  {
  }

  lemma MarkKeeps(c: Cell, e: Event)
    requires Inv(c) && (e.MarkDuringSubmit? || e.Rotate?)
    ensures Keeps(c, Step(c, e))
  {
    if Listed(e.snap) in c.pending { assert TaskInv(c, Listed(e.snap)); }
  }

  lemma PlacementKeeps(c: Cell, snap: Row, status: Status, stage: Stage)
    requires Inv(c)
    ensures Keeps(c, Step(c, ApplyPlacement(snap, status, stage)))
  {
    if Listed(snap) in c.pending { assert TaskInv(c, Listed(snap)); }
  }

  lemma AbsenceKeeps(c: Cell, snap: Row, byOwner: bool, at: nat)
    requires Inv(c)
    ensures Keeps(c, MarkAbsent(c, snap, byOwner, at))
  {
    if Listed(snap) in c.pending { assert TaskInv(c, Listed(snap)); }
  }

  lemma RestartKeeps(c: Cell, e: Event)
    requires Inv(c) && (e.MarkInterrupted? || e.StartupRecovery?)
    ensures Keeps(c, Step(c, e))
  {
  }

  lemma LostBootKeeps(c: Cell, e: Event)
    requires Inv(c) && (e.RuntimeChanged? || e.ConfirmRestart?)
    ensures Keeps(c, Step(c, e))
  {
  }

  predicate ByDispatcher(e: Event) {
    e.Intend? || e.Send? || e.ReplyAccepted? || e.ReplyRejected? || e.InlineCancel? || e.Rebind? || e.SettleInline?
  }

  lemma DispatcherKeeps(c: Cell, e: Event)
    requires Inv(c) && ByDispatcher(e)
    ensures Keeps(c, Step(c, e))
  {
    match e
    case Intend(at) => IntendKeeps(c, at);
    case Send(minted) => SendKeeps(c, minted);
    case ReplyAccepted(at) => AcceptKeeps(c, at);
    case ReplyRejected => RejectKeeps(c);
    case _ => InlineKeeps(c, e);
  }

  predicate ByCanceller(e: Event) {
    e.CloseUnsubmitted? || e.ClaimCancel? || e.CancelReaches? || e.SettleCancelled? || e.SettleUnconfirmed?
  }

  lemma CancellerKeeps(c: Cell, e: Event)
    requires Inv(c) && ByCanceller(e)
    ensures Keeps(c, Step(c, e))
  {
    match e
    case CloseUnsubmitted(snap, status) => CloseKeeps(c, snap, status);
    case ClaimCancel(actor, snap, stage, at) => ClaimKeeps(c, actor, snap, stage, at);
    case CancelReaches(id, rev, acts, confirmed) => AnswerKeeps(c, id, rev, acts, confirmed);
    case SettleCancelled(id, rev, at) => SettleKeeps(c, id, rev, at);
    case SettleUnconfirmed(id, rev, note, at) => UnsettleKeeps(c, id, rev, note, at);
  }

  predicate ByReconciler(e: Event) {
    e.ApplyHistory? || e.ApplyAbsence? || e.MarkDuringSubmit? || e.ReadHistory? || e.Observe? || e.ApplyPlacement? || e.Rotate?
  }

  lemma ReconcilerKeeps(c: Cell, e: Event)
    requires Inv(c) && ByReconciler(e)
    ensures Keeps(c, Step(c, e))
  {
    match e
    case ApplyHistory(snap, status, byOwner, usable, at) => HistoryKeeps(c, snap, status, byOwner, usable, at);
    case ApplyAbsence(snap, byOwner, at) => AbsenceKeeps(c, snap, byOwner, at);
    case ApplyPlacement(snap, status, stage) => PlacementKeeps(c, snap, status, stage);
    case ReadHistory(_) => ReadKeeps(c, e);
    case Observe(_) => ReadKeeps(c, e);
    case MarkDuringSubmit(_) => MarkKeeps(c, e);
    case Rotate(_) => MarkKeeps(c, e);
  }

  lemma CellKeeps(c: Cell, e: Event)
    requires Inv(c)
    ensures Keeps(c, Step(c, e))
  {
    if ByDispatcher(e) {
      DispatcherKeeps(c, e);
    } else if ByCanceller(e) {
      CancellerKeeps(c, e);
    } else if ByReconciler(e) {
      ReconcilerKeeps(c, e);
    } else if e.MarkInterrupted? || e.StartupRecovery? {
      RestartKeeps(c, e);
    } else if e.RuntimeChanged? || e.ConfirmRestart? {
      LostBootKeeps(c, e);
    } else {
      ServerKeeps(c, e);
    }
  }

  lemma TasksKeep(c: Cell, e: Event, t: Task)
    requires Inv(c) && Keeps(c, Step(c, e)) && t in Step(c, e).pending
    ensures TaskInv(Step(c, e), t)
  {
    if t in c.pending {
      TasksSurvive(c, Step(c, e), t);
    } else {
      NewTask(c, e, t);
    }
  }

  /** Every event keeps the invariant, of the cell and of every suspended actor. */
  lemma StepKeeps(c: Cell, e: Event)
    requires Inv(c)
    ensures Inv(Step(c, e)) && Later(c, Step(c, e))
  {
    CellKeeps(c, e);
    forall t | t in Step(c, e).pending ensures TaskInv(Step(c, e), t) {
      TasksKeep(c, e, t);
    }
  }

  /** A claim suspends on the directed cancel of an id that can no longer change. */
  lemma NewCancelCall(c: Cell, actor: CancelActor, snap: Row, stage: Stage, at: nat, t: Task)
    requires Inv(c) && t in Claim(c, actor, snap, stage, at).pending && t !in c.pending
    ensures TaskInv(Claim(c, actor, snap, stage, at), t)
  {
    assert TaskInv(c, Listed(snap));
  }

  lemma NewCancelAnswer(c: Cell, id: PromptId, rev: nat, acts: bool, confirmed: bool, t: Task)
    requires Inv(c) && t in Answer(c, id, rev, acts, confirmed).pending && t !in c.pending
    ensures TaskInv(Answer(c, id, rev, acts, confirmed), t)
  {
    assert TaskInv(c, CancelCalled(id, rev));
  }

  lemma NewInlineAnswer(c: Cell, acts: bool, confirmed: bool, t: Task)
    requires Inv(c) && t in CancelInline(c, acts, confirmed).pending && t !in c.pending
    ensures TaskInv(CancelInline(c, acts, confirmed), t)
  {
  }

  lemma NewReading(c: Cell, e: Event, t: Task)
    requires Inv(c) && (e.ListRow? || e.ReadHistory?)
    requires t in Step(c, e).pending && t !in c.pending
    ensures TaskInv(Step(c, e), t)
  {
    if e.ReadHistory? { assert TaskInv(c, Listed(e.snap)); }
  }

  /** No other event suspends anyone. */
  lemma NobodySuspended(c: Cell, e: Event)
    requires !e.ClaimCancel? && !e.CancelReaches? && !e.InlineCancel? && !e.ListRow? && !e.ReadHistory?
    ensures Step(c, e).pending == c.pending
  {
  }

  /** A task that an event suspends is consistent with the cell it leaves behind. */
  lemma NewTask(c: Cell, e: Event, t: Task)
    requires Inv(c) && t in Step(c, e).pending && t !in c.pending
    ensures TaskInv(Step(c, e), t)
  {
    match e
    case ClaimCancel(actor, snap, stage, at) => NewCancelCall(c, actor, snap, stage, at, t);
    case CancelReaches(id, rev, acts, confirmed) => NewCancelAnswer(c, id, rev, acts, confirmed, t);
    case InlineCancel(acts, confirmed) => NewInlineAnswer(c, acts, confirmed, t);
    case ListRow => NewReading(c, e, t);
    case ReadHistory(_) => NewReading(c, e, t);
    case _ => NobodySuspended(c, e);
  }
}
