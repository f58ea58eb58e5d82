/**
 Whole runs of one timeline job: many children, one dispatcher with its failure
 cleanup, crashes of the director and restarts of ComfyUI, in every interleaving.
 */
module PromptRuns {
  import opened Wrappers
  import opened PromptOwnership
  import opened ChildLedger
  import opened ChildProtocol
  import opened ChildInvariants

  type ChildId = nat

  /** `Cleaning` keeps the children still to be checked and whether all others were certain. */
  datatype Director = Driving | Cleaning(todo: set<ChildId>, certain: bool) | Exited

  datatype World = World(cells: map<ChildId, Cell>, director: Director)

  datatype Move =
    | On(child: ChildId, event: Event)
    | BeginCleanup
    | CheckTarget(child: ChildId)
    | Finalize(status: Status)
    | Leave
    | Crash(forgets: bool)
    | ServerRestart

  predicate Posting(c: Cell) {
    c.poster.Waiting? || c.poster.Rebinding?
  }

  predicate Released(c: Cell) {
    c.db.own.Some? && c.db.own.value.Confirmed()
  }

  /** Only a driving dispatcher persists intents and posts; startup runs in a new process. */
  predicate Allowed(w: World, e: Event) {
    && (e.Intend? || e.Send? ==> w.director.Driving?)
    && (e.StartupRecovery? ==> w.director.Exited?)
  }

  function Forget(c: Cell, forgets: bool): Cell {
    if forgets then Retire(c).(pending := {}) else Retire(c)
  }

  function Next(w: World, m: Move): World {
    match m
    case On(child, event) =>
      if child in w.cells && Allowed(w, event)
      then w.(cells := w.cells[child := Step(w.cells[child], event)]) else w
    case BeginCleanup =>
      if w.director.Driving? && forall k | k in w.cells :: !Posting(w.cells[k])
      then
        World(map k | k in w.cells :: Retire(w.cells[k]),
              Cleaning(set k | k in w.cells && w.cells[k].db.row.promptId.Some?
                               && !Terminal(w.cells[k].db.row.status), true))
      else w
    case CheckTarget(child) =>
      if w.director.Cleaning? && child in w.director.todo && child in w.cells
      then w.(director := Cleaning(w.director.todo - {child},
                                   w.director.certain && Released(w.cells[child])))
      else w
    case Finalize(status) =>
      if w.director == Cleaning({}, true) && (status.Failed? || status.Cancelled?)
      then World(map k | k in w.cells :: CloseByFinalizer(w.cells[k], status), Exited)
      else w
    case Leave =>
      if !w.director.Driving? || forall k | k in w.cells :: !Posting(w.cells[k])
      then World(map k | k in w.cells :: Retire(w.cells[k]), Exited) else w
    case Crash(forgets) =>
      // Environment: a prompt renamed by the server does not lose its response.
      if forall k | k in w.cells && w.cells[k].poster.Waiting? :: MayVanish(w.cells[k])
      then World(map k | k in w.cells :: Forget(w.cells[k], forgets), Exited) else w
    case ServerRestart =>
      World(map k | k in w.cells :: Restarted(Forget(w.cells[k], true)), Exited)
  }

  function Run(w: World, moves: seq<Move>): World
    decreases |moves|
  {
    if moves == [] then w else Run(Next(w, moves[0]), moves[1..])
  }

  /** A newly admitted job: prepared children, nothing submitted. */
  predicate Initial(w: World) {
    && w.director.Driving?
    && forall k | k in w.cells :: w.cells[k] == Fresh(w.cells[k].kind, w.cells[k].requested)
  }

  predicate WorldInv(w: World) {
    && (forall k | k in w.cells :: Inv(w.cells[k]))
    && (!w.director.Driving? ==> forall k | k in w.cells :: Quiet(w.cells[k]))
    && (w.director.Cleaning? && w.director.certain ==>
          forall k | k in w.cells && k !in w.director.todo ::
            w.cells[k].db.own.None? || Released(w.cells[k]))
  }

  // --- The moves that touch every child ----------------------------------

  lemma Survive(c: Cell, c': Cell)
    requires Inv(c) && CellInv(c') && Later(c, c') && c'.pending <= c.pending
    ensures Inv(c')
  {
    forall t | t in c'.pending ensures TaskInv(c', t) {
      TasksSurvive(c, c', t);
    }
  }

  lemma ForgetKeeps(c: Cell, forgets: bool)
    requires Inv(c)
    requires c.poster.Waiting? ==> MayVanish(c)
    ensures Inv(Forget(c, forgets)) && Later(c, Forget(c, forgets)) && Quiet(Forget(c, forgets))
  {
    Survive(c, Forget(c, forgets));
  }

  lemma RestartCellKeeps(c: Cell)
    requires Inv(c)
    ensures var c' := Restarted(Forget(c, true)); Inv(c') && Later(c, c') && Quiet(c')
  {
    Survive(c, Restarted(Forget(c, true)));
  }

  lemma FinalizerKeeps(c: Cell, status: Status)
    requires Inv(c) && (c.db.own.None? || Released(c)) && Quiet(c)
    requires status.Failed? || status.Cancelled?
    ensures var c' := CloseByFinalizer(c, status); Inv(c') && Later(c, c') && Quiet(c')
  {
    Survive(c, CloseByFinalizer(c, status));
  }

  lemma QuietStays(c: Cell, e: Event)
    requires Quiet(c) && !e.Intend?
    ensures Quiet(Step(c, e))
    ensures c.db.own.None? ==> Step(c, e).db.own.None?
  {
  }

  /** What a move leaves behind: the invariant, and every child only moved forward. */
  predicate Forward(w: World, w': World) {
    && w'.cells.Keys == w.cells.Keys
    && forall k | k in w.cells :: Later(w.cells[k], w'.cells[k])
  }

  lemma LaterReflexive(c: Cell)
    ensures Later(c, c)
  {
  }

  /** One child moving forward, quietly unless the dispatcher drives, keeps the job's invariant. */
  lemma ReplaceCell(w: World, child: ChildId, c: Cell)
    requires WorldInv(w) && child in w.cells && Inv(c) && Later(w.cells[child], c)
    requires !w.director.Driving? ==> Quiet(c) && (w.cells[child].db.own.None? ==> c.db.own.None?)
    ensures WorldInv(w.(cells := w.cells[child := c])) && Forward(w, w.(cells := w.cells[child := c]))
  {
    forall k | k in w.cells ensures Later(w.cells[k], w.cells[child := c][k]) {
      if k != child { LaterReflexive(w.cells[k]); }
    }
    if w.director.Cleaning? && Released(w.cells[child]) { ReleasedStays(w.cells[child], c); }
  }

  lemma OnKeeps(w: World, child: ChildId, e: Event)
    requires WorldInv(w)
    ensures WorldInv(Next(w, On(child, e))) && Forward(w, Next(w, On(child, e)))
  {
    if child in w.cells && Allowed(w, e) {
      StepKeeps(w.cells[child], e);
      if !w.director.Driving? { QuietStays(w.cells[child], e); }
      ReplaceCell(w, child, Step(w.cells[child], e));
    } else {
      StandingStill(w);
    }
  }

  lemma StandingStill(w: World)
    ensures Forward(w, w)
  {
    forall k | k in w.cells { LaterReflexive(w.cells[k]); }
  }

  predicate Sound(c: Cell, c': Cell) {
    Inv(c') && Later(c, c') && Quiet(c')
  }

  /** A move that rewrites every child into a quiet one and ends the dispatcher. */
  lemma EveryCell(w: World, w': World)
    requires WorldInv(w) && w'.cells.Keys == w.cells.Keys && w'.director.Exited?
    requires forall k | k in w.cells :: Sound(w.cells[k], w'.cells[k])
    ensures WorldInv(w') && Forward(w, w')
  {
  }

  lemma BeginCleanupKeeps(w: World)
    requires WorldInv(w)
    ensures WorldInv(Next(w, BeginCleanup)) && Forward(w, Next(w, BeginCleanup))
  {
    var w' := Next(w, BeginCleanup);
    if w' != w {
      forall k | k in w.cells ensures Sound(w.cells[k], w'.cells[k]) {
        ForgetKeeps(w.cells[k], false);
      }
      EveryCell(w, w'.(director := Exited));
    }
  }

  lemma CheckTargetKeeps(w: World, child: ChildId)
    requires WorldInv(w)
    ensures WorldInv(Next(w, CheckTarget(child))) && Forward(w, Next(w, CheckTarget(child)))
  {
    forall k | k in w.cells ensures Later(w.cells[k], w.cells[k]) {
      LaterReflexive(w.cells[k]);
    }
  }

  lemma FinalizeKeeps(w: World, status: Status)
    requires WorldInv(w)
    ensures WorldInv(Next(w, Finalize(status))) && Forward(w, Next(w, Finalize(status)))
  {
    var w' := Next(w, Finalize(status));
    if w' != w && w.director == Cleaning({}, true) {
      forall k | k in w.cells ensures Sound(w.cells[k], w'.cells[k]) {
        FinalizerKeeps(w.cells[k], status);
      }
      EveryCell(w, w');
    }
  }

  lemma LeaveKeeps(w: World)
    requires WorldInv(w)
    ensures WorldInv(Next(w, Leave)) && Forward(w, Next(w, Leave))
  {
    var w' := Next(w, Leave);
    if w' != w {
      forall k | k in w.cells ensures Sound(w.cells[k], w'.cells[k]) {
        ForgetKeeps(w.cells[k], false);
      }
      EveryCell(w, w');
    }
  }

  lemma CrashKeeps(w: World, forgets: bool)
    requires WorldInv(w)
    ensures WorldInv(Next(w, Crash(forgets))) && Forward(w, Next(w, Crash(forgets)))
  {
    var w' := Next(w, Crash(forgets));
    if w' != w {
      forall k | k in w.cells ensures Sound(w.cells[k], w'.cells[k]) {
        ForgetKeeps(w.cells[k], forgets);
      }
      EveryCell(w, w');
    }
  }

  lemma ServerRestartKeeps(w: World)
    requires WorldInv(w)
    ensures WorldInv(Next(w, ServerRestart)) && Forward(w, Next(w, ServerRestart))
  {
    var w' := Next(w, ServerRestart);
    forall k | k in w.cells ensures Sound(w.cells[k], w'.cells[k]) {
      RestartCellKeeps(w.cells[k]);
    }
    EveryCell(w, w');
  }

  lemma NextKeeps(w: World, m: Move)
    requires WorldInv(w)
    ensures WorldInv(Next(w, m)) && Forward(w, Next(w, m))
  {
    match m
    case On(child, e) => OnKeeps(w, child, e);
    case BeginCleanup => BeginCleanupKeeps(w);
    case CheckTarget(child) => CheckTargetKeeps(w, child);
    case Finalize(status) => FinalizeKeeps(w, status);
    case Leave => LeaveKeeps(w);
    case Crash(forgets) => CrashKeeps(w, forgets);
    case ServerRestart => ServerRestartKeeps(w);
  }

  lemma InitialInv(w: World)
    requires Initial(w)
    ensures WorldInv(w)
  {
    forall k | k in w.cells ensures Inv(w.cells[k]) {
      FreshOk(w.cells[k].kind, w.cells[k].requested);
    }
  }

  lemma {:induction false} RunKeeps(w: World, moves: seq<Move>)
    requires WorldInv(w)
    ensures WorldInv(Run(w, moves))
    ensures Run(w, moves).cells.Keys == w.cells.Keys
    decreases |moves|
  {
    if moves != [] {
      NextKeeps(w, moves[0]);
      RunKeeps(Next(w, moves[0]), moves[1..]);
    }
  }

  // --- Main results ------------------------------------------------------

  /** Why a terminal child owes nothing to the server. */
  predicate Settled(c: Cell) {
    && !Alive(c.server)
    && (if c.db.own.None?
        then c.server.place.NotSent? || c.server.refused
        else c.db.own.value.Confirmed() && c.db.own.value.certificate.Some?
             && Truthful(c, c.db.own.value.certificate.value))
  }

  /**
   No orphaned prompts: in every run, a terminal child has no prompt that is queued,
   running or still in transit. It was never sent, was refused before queue admission,
   or its ownership carries a certificate of something that did happen to it.
   */
  lemma NoOrphanedPrompt(w: World, moves: seq<Move>, k: ChildId)
    requires Initial(w) && k in w.cells
    ensures k in Run(w, moves).cells
    ensures var c := Run(w, moves).cells[k];
            Terminal(c.db.row.status) ==> Settled(c)
  {
    InitialInv(w);
    RunKeeps(w, moves);
  }

  /** A succeeded child has exact successful history, and a segment its output receipt. */
  lemma SuccessIsCertified(w: World, moves: seq<Move>, k: ChildId)
    requires Initial(w) && k in w.cells
    ensures k in Run(w, moves).cells
    ensures var c := Run(w, moves).cells[k];
            c.db.row.status.Succeeded? ==>
              c.server.history == Some(Succeeded) && (c.kind.Segment? ==> c.db.receipt)
  {
    InitialInv(w);
    RunKeeps(w, moves);
  }

  /** Terminal is absorbing: no continuation of any run changes a terminal status. */
  lemma {:induction false} TerminalIsAbsorbing(w: World, moves: seq<Move>, k: ChildId)
    requires WorldInv(w) && k in w.cells && Terminal(w.cells[k].db.row.status)
    ensures k in Run(w, moves).cells
    ensures Run(w, moves).cells[k].db.row.status == w.cells[k].db.row.status
    decreases |moves|
  {
    if moves != [] {
      NextKeeps(w, moves[0]);
      TerminalIsAbsorbing(Next(w, moves[0]), moves[1..], k);
    }
  }

  /**
   Released ownership is absorbing too: once confirmed, its state and certificate
   are the same at the end of every continuation.
   */
  lemma {:induction false} ReleaseIsAbsorbing(w: World, moves: seq<Move>, k: ChildId)
    requires WorldInv(w) && k in w.cells && Released(w.cells[k])
    ensures k in Run(w, moves).cells && Released(Run(w, moves).cells[k])
    ensures Run(w, moves).cells[k].db.own.value.certificate == w.cells[k].db.own.value.certificate
    decreases |moves|
  {
    if moves != [] {
      NextKeeps(w, moves[0]);
      ReleasedStays(w.cells[k], Next(w, moves[0]).cells[k]);
      ReleaseIsAbsorbing(Next(w, moves[0]), moves[1..], k);
    }
  }

  lemma ReleasedStays(c: Cell, c': Cell)
    requires Inv(c) && Inv(c') && Later(c, c') && Released(c)
    ensures Released(c') && c'.db.own.value.certificate == c.db.own.value.certificate
  {
  }

  /**
   Only positive proof releases ownership. Whatever the event, ownership becomes
   confirmed only through an acknowledged directed cancel, exact history, or a
   confirmed restart of a lost boot, and is erased only by a pre-queue rejection.
   A cancel that answered false or failed, and any number of absences, never do.
   */
  lemma OnlyProofReleases(c: Cell, e: Event)
    requires Inv(c) && c.db.own.Some? && !Released(c)
    ensures Released(Step(c, e)) ==>
              || (e.SettleCancelled? && CancelAnswered(e.promptId, e.revision, true) in c.pending
                  && c.server.removed)
              || (e.SettleInline? && InlineAnswered(c.server.minted, true) in c.pending
                  && c.server.removed)
              || (e.ApplyHistory? && HistoryFound(e.snap, e.status) in c.pending
                  && c.server.history == Some(e.status))
              || (e.ConfirmRestart? && c.server.bootLost)
    ensures Step(c, e).db.own.None? ==> e.ReplyRejected? && c.server.refused
    ensures !Released(Step(c, e)) && Step(c, e).db.own.Some? ==> !Terminal(Step(c, e).db.row.status)
  {
    if Released(Step(c, e)) { ReleaseNeedsProof(c, e); }
    ErasureNeedsRefusal(c, e);
    UnreleasedIsActive(c, e);
  }

  lemma ReleaseNeedsProof(c: Cell, e: Event)
    requires Inv(c) && c.db.own.Some? && !Released(c) && Released(Step(c, e))
    ensures || (e.SettleCancelled? && CancelAnswered(e.promptId, e.revision, true) in c.pending
                && c.server.removed)
            || (e.SettleInline? && InlineAnswered(c.server.minted, true) in c.pending
                && c.server.removed)
            || (e.ApplyHistory? && HistoryFound(e.snap, e.status) in c.pending
                && c.server.history == Some(e.status))
            || (e.ConfirmRestart? && c.server.bootLost)
  {
    match e
    case SettleCancelled(id, rev, at) => assert TaskInv(c, CancelAnswered(id, rev, true));
    case SettleInline(at) => assert TaskInv(c, InlineAnswered(c.db.own.value.Effective(), true));
    case ApplyHistory(snap, status, _, _, _) => assert TaskInv(c, HistoryFound(snap, status));
    case _ =>
  }

  lemma ErasureNeedsRefusal(c: Cell, e: Event)
    requires Inv(c) && c.db.own.Some?
    ensures Step(c, e).db.own.None? ==> e.ReplyRejected? && c.server.refused
  {
  }

  lemma UnreleasedIsActive(c: Cell, e: Event)
    requires Inv(c)
    ensures !Released(Step(c, e)) && Step(c, e).db.own.Some? ==> !Terminal(Step(c, e).db.row.status)
  {
    StepKeeps(c, e);
  }
}
