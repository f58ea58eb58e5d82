/**
 Whole runs of one job: its parent row and all its children together. The children move as
 in `PromptRuns`, the parent as in `ParentLifecycle`; here a pass reads the real children,
 and every transaction that ends the parent closes them too.
 */
module JobRuns {
  import opened Wrappers
  import opened PromptOwnership
  import opened ChildLedger
  import opened ChildProtocol
  import C = ChildInvariants
  import R = PromptRuns
  import P = ParentLifecycle
  import O = OrderedOutputs

  /** `children` lists the job's child rows in the order of the parent's members. */
  datatype JobState = JobState(world: R.World, system: P.System, children: seq<R.ChildId>)

  /** What a pass learns of a child besides its status: why it ended, and what it published. */
  datatype Fact = Fact(cause: P.Cause, child: O.Child)

  type Facts = map<R.ChildId, Fact>

  datatype Event =
    // one stretch of a child's actors, the dispatcher or the server
    | Children(move: R.Move, facts: Facts)
    // the parent alone: cancel requests, dispatcher writes, assembly, restart
    | Parent(event: P.Event)
    // a reconciliation pass
    | Pass(listed: P.Stage, allowAssembly: bool, honor: bool)
    // the transactions that end the parent and close its children: after a certain cleanup,
    // before anything may have been submitted, and over a confirmed restart
    | FinalizeSubmission(facts: Facts)
    | FailAdmitted(facts: Facts)
    | ConfirmRestart(at: nat, facts: Facts)

  // --- Members and cells -------------------------------------------------

  predicate Mirrors(c: Cell, m: P.Member) {
    && m.status == c.db.row.status
    && (P.IsSegment(m) <==> c.kind.Segment?)
    && (!Terminal(m.status) ==> (m.bound <==> c.db.row.promptId.Some?))
  }

  ghost predicate Enumerates(children: seq<R.ChildId>, cells: map<R.ChildId, Cell>) {
    && (forall i, j | 0 <= i < j < |children| :: children[i] != children[j])
    && (forall k :: k in cells <==> k in children)
  }

  predicate Agrees(children: seq<R.ChildId>, cells: map<R.ChildId, Cell>, members: seq<P.Member>) {
    && |members| == |children|
    && forall i | 0 <= i < |children| :: children[i] in cells && Mirrors(cells[children[i]], members[i])
  }

  function RefreshOne(m: P.Member, k: R.ChildId, c: Cell, facts: Facts): P.Member {
    if Terminal(m.status) then m else
      P.Member(
        c.db.row.status,
        if k in facts then facts[k].cause else m.cause,
        m.segments,
        c.db.row.promptId.Some?,
        if k in facts then facts[k].child else m.child)
  }

  /** The members as the parent sees them now. What has ended is not read again. */
  function Refresh(
    children: seq<R.ChildId>, cells: map<R.ChildId, Cell>, members: seq<P.Member>, facts: Facts): (now: seq<P.Member>)
    requires |members| == |children| && forall i | 0 <= i < |children| :: children[i] in cells
    ensures |now| == |members|
    ensures forall i | 0 <= i < |now| :: now[i] == RefreshOne(members[i], children[i], cells[children[i]], facts)
  {
    seq(|members|, i requires 0 <= i < |members| => RefreshOne(members[i], children[i], cells[children[i]], facts))
  }

  // --- Closing children --------------------------------------------------

  /** A listed row closed while it is still the current one. */
  function ClosedCell(c: Cell, status: Status): Cell {
    Step(Step(c, ListRow), CloseUnsubmitted(c.db.row, status))
  }

  /** Close a child that has not ended to the status given for it, if that is a final one. */
  function CloseTo(c: Cell, target: Status): Cell {
    if Terminal(c.db.row.status) || !Terminal(target) then c else ClosedCell(c, target)
  }

  /** The status the parent's members give each child. */
  ghost function Targets(children: seq<R.ChildId>, members: seq<P.Member>): map<R.ChildId, Status>
    requires |members| == |children| && forall i, j | 0 <= i < j < |children| :: children[i] != children[j]
  {
    map i | 0 <= i < |children| :: children[i] := members[i].status
  }

  /** One transaction closes every child to its target. */
  ghost function CloseEach(w: R.World, targets: map<R.ChildId, Status>): R.World {
    w.(cells := map k | k in w.cells :: if k in targets then CloseTo(w.cells[k], targets[k]) else w.cells[k])
  }

  ghost function CloseAll(w: R.World, target: Status): R.World {
    w.(cells := map k | k in w.cells :: CloseTo(w.cells[k], target))
  }

  /** One transaction releases every child whose boot is lost, and cancels those never submitted. */
  ghost function CertifyAll(w: R.World, at: nat): R.World {
    w.(cells := map k | k in w.cells :: CloseTo(Step(w.cells[k], ChildProtocol.ConfirmRestart(at)), Cancelled))
  }

  // --- Steps -------------------------------------------------------------

  /** Parent events that neither read nor close children. */
  predicate ParentOnly(e: P.Event) {
    !e.MembersMove? && !e.Pass? && !e.SubmissionCloses?
  }

  ghost predicate Ready(s: JobState) {
    Enumerates(s.children, s.world.cells) && |s.system.members| == |s.children|
  }

  /** The members refreshed from `w`, then the parent ended. */
  ghost function Ended(s: JobState, w: R.World, facts: Facts, status: Status): (t: JobState)
    requires Ready(s) && w.cells.Keys == s.world.cells.Keys
    ensures t.children == s.children && Ready(t)
  {
    var moved := P.Next(s.system, P.MembersMove(Refresh(s.children, w.cells, s.system.members, facts)));
    JobState(w, P.Next(moved, P.SubmissionCloses(status)), s.children)
  }

  /** The parent after a pass, and the children it closed. */
  ghost function WithParent(s: JobState, system: P.System): (t: JobState)
    requires Ready(s) && |system.members| == |s.children|
    ensures t.children == s.children && Ready(t)
  {
    JobState(CloseEach(s.world, Targets(s.children, system.members)), system, s.children)
  }

  /** Every child that may have crossed the network is held by restart recovery of a lost boot. */
  predicate RestartCertifies(c: Cell, at: nat) {
    Terminal(c.db.row.status) || c.db.own.None?
    || (c.server.bootLost && RestartOwned(c.db.row.stage) && !c.db.own.value.Confirmed() && c.db.own.value.updatedAt <= at)
  }

  ghost predicate NothingOwned(w: R.World) {
    forall k | k in w.cells :: w.cells[k].db.own.None?
  }

  ghost predicate AllCertified(w: R.World, at: nat) {
    forall k | k in w.cells :: RestartCertifies(w.cells[k], at)
  }

  /** What the submission's failure makes of the parent and of the children it closes. */
  function CloseStatus(s: JobState): Status {
    if s.system.parent.cancelRequested then Cancelled else Failed
  }

  ghost function Next(s: JobState, e: Event): (t: JobState)
    requires Ready(s)
    ensures t.children == s.children && Ready(t)
  {
    match e
    case Children(move, facts) =>
      if move.Finalize? then s else
        var w := R.Next(s.world, move);
        JobState(
          w, P.Next(s.system, P.MembersMove(Refresh(s.children, w.cells, s.system.members, facts))), s.children)
    case Parent(event) =>
      if ParentOnly(event) then s.(system := P.Next(s.system, event)) else s
    case Pass(listed, allowAssembly, honor) =>
      WithParent(s, P.Next(s.system, P.Pass(listed, allowAssembly, honor)))
    case FinalizeSubmission(facts) =>
      if s.world.director != R.Cleaning({}, true) || Terminal(s.system.parent.status) then s else
        Ended(s, R.Next(s.world, R.Finalize(CloseStatus(s))), facts, CloseStatus(s))
    case FailAdmitted(facts) =>
      if !s.system.parent.status.Preparing? || !NothingOwned(s.world) then s else
        Ended(s, CloseAll(s.world, Failed), facts, Failed)
    case ConfirmRestart(at, facts) =>
      if !s.system.parent.status.Cancelling? || !s.system.parent.cancelRequested || !AllCertified(s.world, at)
      then s
      else
        Ended(s, CertifyAll(s.world, at), facts, Cancelled)
  }

  ghost predicate Initial(s: JobState) {
    && R.Initial(s.world) && P.Initial(s.system)
    && Enumerates(s.children, s.world.cells) && Agrees(s.children, s.world.cells, s.system.members)
  }

  /** The children's own invariant. */
  ghost predicate Sound(w: R.World) {
    var sound := R.WorldInv(w);
    sound
  }

  ghost predicate Coherent(s: JobState) {
    && Sound(s.world) && P.Inv(s.system) && Enumerates(s.children, s.world.cells)
    && Agrees(s.children, s.world.cells, s.system.members)
    && (Terminal(s.system.parent.status) ==> P.AllTerminal(s.system.members))
  }

  ghost predicate JobInv(s: JobState) {
    var coherent := Coherent(s);
    coherent
  }

  ghost function Run(s: JobState, events: seq<Event>): JobState
    requires Ready(s)
    decreases |events|
  {
    if events == [] then s else Run(Next(s, events[0]), events[1..])
  }

  // --- Closing keeps the children's invariant ----------------------------

  /** Each child moved on without reviving an ended row. */
  predicate MovedOn(before: Cell, after: Cell) {
    && after.kind == before.kind
    && (Terminal(before.db.row.status) ==> after.db.row.status == before.db.row.status)
  }

  lemma MoveKeeps(w: R.World, move: R.Move)
    requires Sound(w)
    ensures Sound(R.Next(w, move))
    ensures forall k | k in w.cells :: k in R.Next(w, move).cells && MovedOn(w.cells[k], R.Next(w, move).cells[k])
  {
    R.NextKeeps(w, move);
    forall k | k in w.cells ensures MovedOn(w.cells[k], R.Next(w, move).cells[k]) {
      assert Later(w.cells[k], R.Next(w, move).cells[k]);
    }
  }

  lemma SoundChild(w: R.World, k: R.ChildId)
    requires Sound(w) && k in w.cells
    ensures Inv(w.cells[k])
  {
  }

  /** What a transaction over all children may do to one of them. */
  predicate Advanced(before: Cell, after: Cell) {
    && Inv(after) && Later(before, after)
    && (Quiet(before) ==> Quiet(after))
    && (before.db.own.None? ==> after.db.own.None?)
  }

  lemma EveryChildAdvances(w: R.World, v: R.World)
    requires Sound(w) && v.director == w.director && v.cells.Keys == w.cells.Keys
    requires forall k | k in w.cells :: Advanced(w.cells[k], v.cells[k])
    ensures Sound(v) && forall k | k in w.cells :: MovedOn(w.cells[k], v.cells[k])
  {
    forall k | k in w.cells && R.Released(w.cells[k]) ensures R.Released(v.cells[k]) {
      assert Advanced(w.cells[k], v.cells[k]);
      R.ReleasedStays(w.cells[k], v.cells[k]);
    }
    forall k | k in w.cells ensures MovedOn(w.cells[k], v.cells[k]) {
      assert Advanced(w.cells[k], v.cells[k]);
    }
  }

  /** A row closed without a prompt keeps its ownership record and its poster. */
  lemma ClosingAdvances(c: Cell, target: Status)
    requires Inv(c)
    ensures Advanced(c, CloseTo(c, target))
  {
    if !Terminal(c.db.row.status) && Terminal(target) {
      C.StepKeeps(c, ListRow);
      C.StepKeeps(Step(c, ListRow), CloseUnsubmitted(c.db.row, target));
      ClosingMovesForward(c, target);
    }
  }

  lemma ClosingMovesForward(c: Cell, target: Status)
    ensures var d := ClosedCell(c, target);
            && d.poster == c.poster && d.server == c.server && d.db.own == c.db.own && d.db.receipt == c.db.receipt
            && d.kind == c.kind && d.requested == c.requested
            && d.db.row.version >= c.db.row.version
            && (d.db.row.version == c.db.row.version ==> d.db.row == c.db.row)
            && (Terminal(c.db.row.status) ==> d.db.row.status == c.db.row.status)
  {
  }

  lemma CertificateAdvances(c: Cell, at: nat)
    requires Inv(c)
    ensures Advanced(c, Step(c, ChildProtocol.ConfirmRestart(at)))
  {
    C.StepKeeps(c, ChildProtocol.ConfirmRestart(at));
  }

  lemma AdvancedTwice(a: Cell, b: Cell, c: Cell)
    requires Advanced(a, b) && Advanced(b, c)
    ensures Advanced(a, c)
  {
  }

  // Which rows a closing ends.

  predicate Closable(c: Cell, target: Status) {
    Terminal(c.db.row.status) || (c.db.row.promptId.None? && (target.Failed? || target.Cancelled?))
  }

  lemma ClosingEnds(c: Cell, target: Status)
    requires Closable(c, target)
    ensures Terminal(CloseTo(c, target).db.row.status)
    ensures !Terminal(c.db.row.status) ==> CloseTo(c, target).db.row.status == target
  {
  }

  lemma UnownedIsClosable(c: Cell, target: Status)
    requires Inv(c) && c.db.own.None? && (target.Failed? || target.Cancelled?)
    ensures Closable(c, target)
  {
  }

  lemma CertificateReleases(c: Cell, at: nat)
    requires Inv(c) && RestartCertifies(c, at)
    ensures Closable(Step(c, ChildProtocol.ConfirmRestart(at)), Cancelled)
  {
  }

  // --- Every step keeps the joint invariant ------------------------------

  lemma RefreshAgrees(s: JobState, w: R.World, facts: Facts)
    requires JobInv(s) && w.cells.Keys == s.world.cells.Keys
    requires forall k | k in s.world.cells :: MovedOn(s.world.cells[k], w.cells[k])
    ensures var now := Refresh(s.children, w.cells, s.system.members, facts);
            && Agrees(s.children, w.cells, now) && P.Evolves(s.system.members, now)
            && (P.AllTerminal(s.system.members) ==> now == s.system.members)
  {
    var now := Refresh(s.children, w.cells, s.system.members, facts);
    forall i | 0 <= i < |s.children| ensures s.children[i] in w.cells && Mirrors(w.cells[s.children[i]], now[i]) {
      assert Mirrors(s.world.cells[s.children[i]], s.system.members[i]);
      assert MovedOn(s.world.cells[s.children[i]], w.cells[s.children[i]]);
    }
    if P.AllTerminal(s.system.members) {
      forall i | 0 <= i < |now| ensures now[i] == s.system.members[i] {
        assert s.system.members[i] in s.system.members;
      }
    }
  }

  lemma ChildrenKeep(s: JobState, move: R.Move, facts: Facts)
    requires JobInv(s)
    ensures JobInv(Next(s, Children(move, facts)))
  {
    if !move.Finalize? {
      var w := R.Next(s.world, move);
      MoveKeeps(s.world, move);
      RefreshAgrees(s, w, facts);
      P.NextKeeps(s.system, P.MembersMove(Refresh(s.children, w.cells, s.system.members, facts)));
    }
  }

  lemma SucceededAreTerminal(members: seq<P.Member>)
    requires forall m | m in members :: m.status.Succeeded?
    ensures P.AllTerminal(members)
  {
  }

  lemma ParentAloneKeeps(s: JobState, event: P.Event)
    requires JobInv(s) && ParentOnly(event)
    ensures JobInv(s.(system := P.Next(s.system, event)))
  {
    var t := P.Next(s.system, event);
    P.NextKeeps(s.system, event);
    assert t.members == s.system.members;
    if Terminal(t.parent.status) && !Terminal(s.system.parent.status) {
      AssemblyEndsLast(s.system, event);
    }
  }

  lemma ParentMovesAlone(s: JobState, event: P.Event)
    requires Ready(s)
    ensures Next(s, Parent(event)) == if ParentOnly(event) then s.(system := P.Next(s.system, event)) else s
  {
  }

  lemma ParentKeeps(s: JobState, event: P.Event)
    requires JobInv(s)
    ensures JobInv(Next(s, Parent(event)))
  {
    ParentMovesAlone(s, event);
    if ParentOnly(event) { ParentAloneKeeps(s, event); }
  }

  lemma AssemblyEndsLast(s: P.System, e: P.Event)
    requires P.Inv(s) && ParentOnly(e) && !Terminal(s.parent.status) && Terminal(P.Next(s, e).parent.status)
    ensures P.AllTerminal(s.members)
  {
    assert e.AssemblyEnds? && s.claims != {};
    SucceededAreTerminal(s.members);
  }

  /** What sibling closure does to one member. */
  predicate SiblingClosed(m: P.Member, after: P.Member) {
    after == m
    || (!Terminal(m.status) && !m.bound && (after.status.Failed? || after.status.Cancelled?)
        && after.segments == m.segments)
  }

  lemma PassClosesSiblings(s: P.System, listed: P.Stage, allowAssembly: bool, honor: bool)
    ensures var t := P.Next(s, P.Pass(listed, allowAssembly, honor));
            |t.members| == |s.members| && forall i | 0 <= i < |s.members| :: SiblingClosed(s.members[i], t.members[i])
  {
  }

  /** Closing a child as the pass closed its member keeps the two alike. */
  lemma ClosingMirrors(c: Cell, m: P.Member, after: P.Member)
    requires Mirrors(c, m) && SiblingClosed(m, after)
    ensures Mirrors(CloseTo(c, after.status), after)
  {
    if after != m { ClosingEnds(c, after.status); }
  }

  /** What one pass makes of the parent and its members. */
  lemma PassOnParent(s: P.System, listed: P.Stage, allowAssembly: bool, honor: bool)
    requires P.Inv(s) && (Terminal(s.parent.status) ==> P.AllTerminal(s.members))
    ensures var t := P.Next(s, P.Pass(listed, allowAssembly, honor));
            P.Inv(t) && (Terminal(t.parent.status) ==> P.AllTerminal(t.members))
  {
    P.NextKeeps(s, P.Pass(listed, allowAssembly, honor));
    if !Terminal(s.parent.status) { P.PassEndsLast(s, listed, allowAssembly, honor); }
  }

  lemma PassOnChildren(s: JobState, t: P.System)
    requires JobInv(s) && P.Inv(t) && |t.members| == |s.children|
    requires Terminal(t.parent.status) ==> P.AllTerminal(t.members)
    requires forall i | 0 <= i < |t.members| :: SiblingClosed(s.system.members[i], t.members[i])
    ensures JobInv(WithParent(s, t))
  {
    ClosedWorld(s, t.members);
  }

  lemma PassedKeeps(s: JobState, listed: P.Stage, allowAssembly: bool, honor: bool)
    requires JobInv(s)
    ensures |P.Next(s.system, P.Pass(listed, allowAssembly, honor)).members| == |s.children|
    ensures JobInv(WithParent(s, P.Next(s.system, P.Pass(listed, allowAssembly, honor))))
  {
    PassOnParent(s.system, listed, allowAssembly, honor);
    PassClosesSiblings(s.system, listed, allowAssembly, honor);
    PassOnChildren(s, P.Next(s.system, P.Pass(listed, allowAssembly, honor)));
  }

  lemma PassIsBoth(s: JobState, listed: P.Stage, allowAssembly: bool, honor: bool)
    requires Ready(s)
    ensures |P.Next(s.system, P.Pass(listed, allowAssembly, honor)).members| == |s.children|
    ensures Next(s, Pass(listed, allowAssembly, honor))
            == WithParent(s, P.Next(s.system, P.Pass(listed, allowAssembly, honor)))
  {
  }

  lemma PassKeeps(s: JobState, listed: P.Stage, allowAssembly: bool, honor: bool)
    requires JobInv(s)
    ensures JobInv(Next(s, Pass(listed, allowAssembly, honor)))
  {
    PassIsBoth(s, listed, allowAssembly, honor);
    PassedKeeps(s, listed, allowAssembly, honor);
  }

  lemma ClosedWorld(s: JobState, members: seq<P.Member>)
    requires JobInv(s) && |members| == |s.children|
    requires forall i | 0 <= i < |members| :: SiblingClosed(s.system.members[i], members[i])
    ensures var w := CloseEach(s.world, Targets(s.children, members));
            Sound(w) && Enumerates(s.children, w.cells) && Agrees(s.children, w.cells, members)
  {
    var targets := Targets(s.children, members);
    var w := CloseEach(s.world, targets);
    forall k | k in s.world.cells ensures Advanced(s.world.cells[k], w.cells[k]) {
      SoundChild(s.world, k);
      ClosingAdvances(s.world.cells[k], if k in targets then targets[k] else Preparing);
    }
    EveryChildAdvances(s.world, w);
    forall i | 0 <= i < |s.children| ensures s.children[i] in w.cells && Mirrors(w.cells[s.children[i]], members[i]) {
      var k := s.children[i];
      assert Mirrors(s.world.cells[k], s.system.members[i]);
      assert targets[k] == members[i].status;
      ClosingMirrors(s.world.cells[k], s.system.members[i], members[i]);
    }
  }

  lemma RefreshedHaveEnded(s: JobState, w: R.World, facts: Facts)
    requires JobInv(s) && w.cells.Keys == s.world.cells.Keys
    requires forall k | k in s.world.cells :: Terminal(w.cells[k].db.row.status)
    ensures P.AllTerminal(Refresh(s.children, w.cells, s.system.members, facts))
  {
    var now := Refresh(s.children, w.cells, s.system.members, facts);
    forall m | m in now ensures Terminal(m.status) {
      var i :| 0 <= i < |now| && now[i] == m;
      assert s.children[i] in s.world.cells;
    }
  }

  lemma ClosingParentKeeps(system: P.System, members: seq<P.Member>, status: Status)
    requires P.Inv(system) && P.Evolves(system.members, members)
    ensures var t := P.Next(P.Next(system, P.MembersMove(members)), P.SubmissionCloses(status));
            P.Inv(t) && t.members == members
  {
    P.NextKeeps(system, P.MembersMove(members));
    P.NextKeeps(P.Next(system, P.MembersMove(members)), P.SubmissionCloses(status));
  }

  /** Ending the parent over children that have all ended. */
  lemma EndedKeeps(s: JobState, w: R.World, facts: Facts, status: Status)
    requires JobInv(s) && Sound(w) && w.cells.Keys == s.world.cells.Keys
    requires forall k | k in s.world.cells :: MovedOn(s.world.cells[k], w.cells[k])
    requires forall k | k in s.world.cells :: Terminal(w.cells[k].db.row.status)
    ensures JobInv(Ended(s, w, facts, status))
  {
    RefreshAgrees(s, w, facts);
    RefreshedHaveEnded(s, w, facts);
    ClosingParentKeeps(s.system, Refresh(s.children, w.cells, s.system.members, facts), status);
  }

  lemma FinalizerEnds(w: R.World, status: Status)
    requires w.director == R.Cleaning({}, true) && (status.Failed? || status.Cancelled?)
    ensures var v := R.Next(w, R.Finalize(status));
            v.cells.Keys == w.cells.Keys && forall k | k in w.cells :: Terminal(v.cells[k].db.row.status)
  {
    forall k | k in w.cells ensures Terminal(CloseByFinalizer(w.cells[k], status).db.row.status) {
    }
  }

  lemma FinalizeKeeps(s: JobState, facts: Facts, status: Status)
    requires JobInv(s) && s.world.director == R.Cleaning({}, true) && (status.Failed? || status.Cancelled?)
    ensures R.Next(s.world, R.Finalize(status)).cells.Keys == s.world.cells.Keys
    ensures JobInv(Ended(s, R.Next(s.world, R.Finalize(status)), facts, status))
  {
    MoveKeeps(s.world, R.Finalize(status));
    FinalizerEnds(s.world, status);
    EndedKeeps(s, R.Next(s.world, R.Finalize(status)), facts, status);
  }

  lemma FailAdmittedKeeps(s: JobState, facts: Facts)
    requires JobInv(s) && NothingOwned(s.world)
    ensures JobInv(Ended(s, CloseAll(s.world, Failed), facts, Failed))
  {
    var w := CloseAll(s.world, Failed);
    forall k | k in s.world.cells
      ensures Advanced(s.world.cells[k], w.cells[k]) && Terminal(w.cells[k].db.row.status)
    {
      SoundChild(s.world, k);
      ClosingAdvances(s.world.cells[k], Failed);
      UnownedIsClosable(s.world.cells[k], Failed);
      ClosingEnds(s.world.cells[k], Failed);
    }
    EveryChildAdvances(s.world, w);
    EndedKeeps(s, w, facts, Failed);
  }

  lemma RestartKeeps(s: JobState, at: nat, facts: Facts)
    requires JobInv(s) && AllCertified(s.world, at)
    ensures JobInv(Ended(s, CertifyAll(s.world, at), facts, Cancelled))
  {
    var w := CertifyAll(s.world, at);
    forall k | k in s.world.cells
      ensures Advanced(s.world.cells[k], w.cells[k]) && Terminal(w.cells[k].db.row.status)
    {
      SoundChild(s.world, k);
      CertifiedChildEnds(s.world.cells[k], at);
    }
    EveryChildAdvances(s.world, w);
    EndedKeeps(s, w, facts, Cancelled);
  }

  lemma CertifiedChildEnds(c: Cell, at: nat)
    requires Inv(c) && RestartCertifies(c, at)
    ensures var d := CloseTo(Step(c, ChildProtocol.ConfirmRestart(at)), Cancelled);
            Advanced(c, d) && Terminal(d.db.row.status)
  {
    var confirmed := Step(c, ChildProtocol.ConfirmRestart(at));
    CertificateAdvances(c, at);
    ClosingAdvances(confirmed, Cancelled);
    AdvancedTwice(c, confirmed, CloseTo(confirmed, Cancelled));
    CertificateReleases(c, at);
    ClosingEnds(confirmed, Cancelled);
  }

  lemma FinalizerEndsJob(s: JobState, facts: Facts)
    requires Ready(s)
    ensures R.Next(s.world, R.Finalize(CloseStatus(s))).cells.Keys == s.world.cells.Keys
    ensures var t := Next(s, FinalizeSubmission(facts));
            t == s || (s.world.director == R.Cleaning({}, true)
                       && t == Ended(s, R.Next(s.world, R.Finalize(CloseStatus(s))), facts, CloseStatus(s)))
  {
  }

  lemma FinalizerKeeps(s: JobState, facts: Facts)
    requires JobInv(s)
    ensures JobInv(Next(s, FinalizeSubmission(facts)))
  {
    FinalizerEndsJob(s, facts);
    if s.world.director == R.Cleaning({}, true) { FinalizeKeeps(s, facts, CloseStatus(s)); }
  }

  lemma AdmissionFailureEnds(s: JobState, facts: Facts)
    requires Ready(s)
    ensures Next(s, FailAdmitted(facts)) == s
            || (NothingOwned(s.world) && Next(s, FailAdmitted(facts)) == Ended(s, CloseAll(s.world, Failed), facts, Failed))
  {
  }

  lemma AdmissionFailureKeeps(s: JobState, facts: Facts)
    requires JobInv(s)
    ensures JobInv(Next(s, FailAdmitted(facts)))
  {
    AdmissionFailureEnds(s, facts);
    if NothingOwned(s.world) { FailAdmittedKeeps(s, facts); }
  }

  lemma RestartEnds(s: JobState, at: nat, facts: Facts)
    requires Ready(s)
    ensures var t := Next(s, Event.ConfirmRestart(at, facts));
            t == s || (AllCertified(s.world, at) && t == Ended(s, CertifyAll(s.world, at), facts, Cancelled))
  {
  }

  lemma ConfirmedRestartKeeps(s: JobState, at: nat, facts: Facts)
    requires JobInv(s)
    ensures JobInv(Next(s, Event.ConfirmRestart(at, facts)))
  {
    RestartEnds(s, at, facts);
    if AllCertified(s.world, at) { RestartKeeps(s, at, facts); }
  }

  lemma NextKeeps(s: JobState, e: Event)
    requires JobInv(s)
    ensures JobInv(Next(s, e))
  {
    match e
    case Children(move, facts) => ChildrenKeep(s, move, facts);
    case Parent(event) => ParentKeeps(s, event);
    case Pass(listed, allowAssembly, honor) => PassKeeps(s, listed, allowAssembly, honor);
    case FinalizeSubmission(facts) => FinalizerKeeps(s, facts);
    case FailAdmitted(facts) => AdmissionFailureKeeps(s, facts);
    case ConfirmRestart(at, facts) => ConfirmedRestartKeeps(s, at, facts);
  }

  lemma {:induction false} RunKeeps(s: JobState, events: seq<Event>)
    requires JobInv(s)
    ensures JobInv(Run(s, events)) && Run(s, events).children == s.children
    decreases |events|
  {
    if events != [] {
      NextKeeps(s, events[0]);
      RunKeeps(Next(s, events[0]), events[1..]);
    }
  }

  lemma InitialInv(s: JobState)
    requires Initial(s)
    ensures JobInv(s)
  {
    R.InitialInv(s.world);
  }

  // --- Main results ------------------------------------------------------

  /** With every member ended, so has every child. */
  lemma EveryChildEnded(s: JobState, k: R.ChildId, succeeded: bool)
    requires JobInv(s) && k in s.world.cells && P.AllTerminal(s.system.members)
    requires succeeded ==> forall m | m in s.system.members :: m.status.Succeeded?
    ensures Terminal(s.world.cells[k].db.row.status)
    ensures succeeded ==> s.world.cells[k].db.row.status.Succeeded?
  {
    assert k in s.children;
    var i :| 0 <= i < |s.children| && s.children[i] == k;
    assert Mirrors(s.world.cells[s.children[i]], s.system.members[i]);
    assert s.system.members[i] in s.system.members;
  }

  lemma EndedIsSettled(c: Cell)
    requires Inv(c) && Terminal(c.db.row.status)
    ensures R.Settled(c)
    ensures c.db.row.status.Succeeded? ==> c.server.history == Some(Succeeded) && (c.kind.Segment? ==> c.db.receipt)
  {
  }

  /** The child has ended, and nothing of it is queued, running or in transit. */
  predicate Over(w: R.World, k: R.ChildId) {
    var over := k in w.cells && Terminal(w.cells[k].db.row.status) && R.Settled(w.cells[k]);
    over
  }

  lemma SettledWithParent(s: JobState, k: R.ChildId)
    requires JobInv(s) && k in s.world.cells && Terminal(s.system.parent.status)
    ensures Over(s.world, k)
  {
    EveryChildEnded(s, k, false);
    SoundChild(s.world, k);
    EndedIsSettled(s.world.cells[k]);
  }

  /**
   A terminal parent is final for ComfyUI too: in every run of the whole job, once the
   parent has ended every child has ended, and none of them has a prompt that is queued,
   running or in transit.
   */
  lemma {:induction false} TerminalParentHoldsNothing(s: JobState, events: seq<Event>, k: R.ChildId)
    requires Initial(s) && k in s.world.cells
    ensures Terminal(Run(s, events).system.parent.status) ==> Over(Run(s, events).world, k)
  {
    InitialInv(s);
    RunKeeps(s, events);
    var t := Run(s, events);
    assert k in t.children;
    if Terminal(t.system.parent.status) { SettledWithParent(t, k); }
  }

  /**
   Success is earned by every child: in every run of the whole job, a succeeded parent has
   only children whose prompts succeeded in ComfyUI, every segment with its output receipt.
   */
  lemma {:induction false} SuccessIsEarnedByAll(s: JobState, events: seq<Event>, k: R.ChildId)
    requires Initial(s) && k in s.world.cells
    ensures k in Run(s, events).world.cells
    ensures Run(s, events).system.parent.status.Succeeded? ==>
              var c := Run(s, events).world.cells[k];
              c.db.row.status.Succeeded? && c.server.history == Some(Succeeded) && (c.kind.Segment? ==> c.db.receipt)
  {
    InitialInv(s);
    RunKeeps(s, events);
    var t := Run(s, events);
    assert k in t.children;
    if t.system.parent.status.Succeeded? {
      assert P.CompleteResult(t.system);
      EveryChildEnded(t, k, true);
      SoundChild(t.world, k);
      EndedIsSettled(t.world.cells[k]);
    }
  }

  /** When a transaction that ends the parent goes through. */
  ghost predicate Closes(s: JobState, e: Event) {
    match e
    case FinalizeSubmission(_) => s.world.director == R.Cleaning({}, true) && !Terminal(s.system.parent.status)
    case FailAdmitted(_) => s.system.parent.status.Preparing? && NothingOwned(s.world)
    case ConfirmRestart(at, _) =>
      s.system.parent.status.Cancelling? && s.system.parent.cancelRequested && AllCertified(s.world, at)
    case _ => false
  }

  /** Each child that had not ended takes the parent's status, and the others stay as they were. */
  ghost predicate TakesStatus(before: R.World, after: R.World, status: Status) {
    && after.cells.Keys == before.cells.Keys
    && forall k | k in before.cells ::
         after.cells[k].db.row.status
         == if Terminal(before.cells[k].db.row.status) then before.cells[k].db.row.status else status
  }

  lemma EndedParent(s: JobState, w: R.World, facts: Facts, status: Status)
    requires Ready(s) && w.cells.Keys == s.world.cells.Keys
    requires !Terminal(s.system.parent.status) && (status.Failed? || status.Cancelled?)
    ensures Ended(s, w, facts, status).system.parent.status == status
    ensures Ended(s, w, facts, status).system.parent.published == s.system.parent.published
    ensures Ended(s, w, facts, status).world == w
  {
  }

  lemma FinalizerTakes(w: R.World, status: Status)
    requires w.director == R.Cleaning({}, true) && (status.Failed? || status.Cancelled?)
    ensures TakesStatus(w, R.Next(w, R.Finalize(status)), status)
  {
    forall k | k in w.cells
      ensures CloseByFinalizer(w.cells[k], status).db.row.status
              == if Terminal(w.cells[k].db.row.status) then w.cells[k].db.row.status else status
    {
    }
  }

  lemma ClosingTakes(w: R.World, status: Status)
    requires Sound(w) && NothingOwned(w) && (status.Failed? || status.Cancelled?)
    ensures TakesStatus(w, CloseAll(w, status), status)
  {
    forall k | k in w.cells
      ensures CloseTo(w.cells[k], status).db.row.status
              == if Terminal(w.cells[k].db.row.status) then w.cells[k].db.row.status else status
    {
      SoundChild(w, k);
      UnownedIsClosable(w.cells[k], status);
      ClosingEnds(w.cells[k], status);
    }
  }

  lemma CertifyingTakes(w: R.World, at: nat)
    requires Sound(w) && AllCertified(w, at)
    ensures TakesStatus(w, CertifyAll(w, at), Cancelled)
    ensures forall k | k in w.cells && w.cells[k].db.own.Some? && !Terminal(w.cells[k].db.row.status) ::
              CertifyAll(w, at).cells[k].db.own.Some?
              && CertifyAll(w, at).cells[k].db.own.value.certificate
                 == Some(EndpointRestart(w.cells[k].db.own.value.Effective(), at))
  {
    forall k | k in w.cells
      ensures var d := CloseTo(Step(w.cells[k], ChildProtocol.ConfirmRestart(at)), Cancelled);
              && (d.db.row.status
                  == if Terminal(w.cells[k].db.row.status) then w.cells[k].db.row.status else Cancelled)
              && (w.cells[k].db.own.Some? && !Terminal(w.cells[k].db.row.status) ==>
                    d.db.own.Some?
                    && d.db.own.value.certificate == Some(EndpointRestart(w.cells[k].db.own.value.Effective(), at)))
    {
      SoundChild(w, k);
      RestartTakes(w.cells[k], at);
    }
  }

  lemma RestartTakes(c: Cell, at: nat)
    requires Inv(c) && RestartCertifies(c, at)
    ensures var d := CloseTo(Step(c, ChildProtocol.ConfirmRestart(at)), Cancelled);
            && d.db.row.status == (if Terminal(c.db.row.status) then c.db.row.status else Cancelled)
            && (c.db.own.Some? && !Terminal(c.db.row.status) ==>
                  d.db.own.Some?
                  && d.db.own.value.certificate == Some(EndpointRestart(c.db.own.value.Effective(), at)))
  {
    if c.db.own.None? { UnownedIsClosable(c, Cancelled); }
  }

  lemma ClosesToEnded(s: JobState, e: Event)
    requires JobInv(s) && Closes(s, e)
    ensures TakesStatus(s.world, Next(s, e).world, Next(s, e).system.parent.status)
    ensures Next(s, e).system.parent.published == s.system.parent.published
    ensures e.FailAdmitted? ==> Next(s, e).system.parent.status == Failed
    ensures e.ConfirmRestart? ==> Next(s, e).system.parent.status == Cancelled
    ensures e.FinalizeSubmission? && s.system.parent.cancelRequested ==> Next(s, e).system.parent.status == Cancelled
    ensures e.FinalizeSubmission? && !s.system.parent.cancelRequested ==> Next(s, e).system.parent.status == Failed
  {
    match e
    case FinalizeSubmission(facts) =>
      FinalizerTakes(s.world, CloseStatus(s));
      EndedParent(s, R.Next(s.world, R.Finalize(CloseStatus(s))), facts, CloseStatus(s));
    case FailAdmitted(facts) =>
      ClosingTakes(s.world, Failed);
      EndedParent(s, CloseAll(s.world, Failed), facts, Failed);
    case ConfirmRestart(at, facts) =>
      CertifyingTakes(s.world, at);
      EndedParent(s, CertifyAll(s.world, at), facts, Cancelled);
    case _ =>
  }

  /**
   A failed submission whose cleanup was certain, a job that never sent anything, and a
   job held for a restart that is confirmed are each closed by one transaction. An
   admission failure fails the parent, a confirmed restart cancels it, and a failed
   submission does the one or the other by the cancel bit. Every child that had not ended
   takes the parent's status, and every child is over for ComfyUI too.
   */
  lemma ClosingEndsJob(s: JobState, e: Event, k: R.ChildId)
    requires JobInv(s) && Closes(s, e) && k in s.world.cells
    ensures var t := Next(s, e);
            && Over(t.world, k) && TakesStatus(s.world, t.world, t.system.parent.status)
            && t.system.parent.published == s.system.parent.published
            && (e.FailAdmitted? ==> t.system.parent.status == Failed)
            && (e.ConfirmRestart? ==> t.system.parent.status == Cancelled)
            && (e.FinalizeSubmission? && s.system.parent.cancelRequested ==> t.system.parent.status == Cancelled)
            && (e.FinalizeSubmission? && !s.system.parent.cancelRequested ==> t.system.parent.status == Failed)
  {
    ClosesToEnded(s, e);
    NextKeeps(s, e);
    assert k in Next(s, e).world.cells;
    SettledWithParent(Next(s, e), k);
  }

  /** Otherwise these transactions change nothing. */
  lemma NotClosingIsIdle(s: JobState, e: Event)
    requires JobInv(s) && (e.FinalizeSubmission? || e.FailAdmitted? || e.ConfirmRestart?) && !Closes(s, e)
    ensures Next(s, e) == s
  {
  }

  /** A refreshed member: what has ended stays, the rest takes what is reported. */
  lemma RefreshedReports(s: JobState, w: R.World, facts: Facts, i: nat)
    requires JobInv(s) && w.cells.Keys == s.world.cells.Keys && i < |s.children|
    requires forall k | k in s.world.cells :: MovedOn(s.world.cells[k], w.cells[k])
    ensures s.children[i] in w.cells
    ensures var now := Refresh(s.children, w.cells, s.system.members, facts)[i];
            if Terminal(s.system.members[i].status) then now == s.system.members[i]
            else Reports(w.cells[s.children[i]], s.system.members[i], now, s.children[i], facts)
  {
  }

  lemma RefreshIsTaken(s: JobState, move: R.Move, facts: Facts)
    requires JobInv(s) && !move.Finalize?
    ensures var t := Next(s, Children(move, facts));
            && t.world == R.Next(s.world, move) && t.world.cells.Keys == s.world.cells.Keys
            && t.system == s.system.(members := Refresh(s.children, t.world.cells, s.system.members, facts))
  {
    MoveKeeps(s.world, move);
    RefreshAgrees(s, R.Next(s.world, move), facts);
  }

  /**
   The parent learns what its children did: a member that had not ended takes its child's
   status and submission, with the cause and the output reported for it, if any. The
   parent row itself is not written, and the children are those the move leaves.
   */
  lemma ChildrenAreReported(s: JobState, move: R.Move, facts: Facts, i: nat)
    requires JobInv(s) && !move.Finalize? && i < |s.children|
    ensures var t := Next(s, Children(move, facts));
            && t.world == R.Next(s.world, move)
            && t.system == s.system.(members := t.system.members) && |t.system.members| == |s.children|
            && s.children[i] in t.world.cells
            && (if Terminal(s.system.members[i].status) then t.system.members[i] == s.system.members[i]
                else Reports(t.world.cells[s.children[i]], s.system.members[i], t.system.members[i], s.children[i], facts))
  {
    MoveKeeps(s.world, move);
    RefreshIsTaken(s, move, facts);
    RefreshedReports(s, R.Next(s.world, move), facts, i);
  }

  predicate Reports(c: Cell, before: P.Member, after: P.Member, k: R.ChildId, facts: Facts) {
    && after.status == c.db.row.status && (after.bound <==> c.db.row.promptId != None)
    && after.segments == before.segments
    && (k in facts ==> after.cause == facts[k].cause && after.child == facts[k].child)
    && (k !in facts ==> after.cause == before.cause && after.child == before.child)
  }

  /** A cancelled job whose children have all ended, own nothing or are held for a lost boot is closed by the confirmation. */
  lemma HeldJobCloses(s: JobState, at: nat, facts: Facts)
    requires s.system.parent.status == Cancelling && s.system.parent.cancelRequested
    requires forall k | k in s.world.cells && !Terminal(s.world.cells[k].db.row.status) && s.world.cells[k].db.own != None ::
               && s.world.cells[k].server.bootLost && RestartOwned(s.world.cells[k].db.row.stage)
               && !R.Released(s.world.cells[k]) && s.world.cells[k].db.own.value.updatedAt <= at
    ensures Closes(s, Event.ConfirmRestart(at, facts))
  {
  }
}
