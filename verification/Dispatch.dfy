/**
 The lazy dispatch loop of one job: which segments are posted, in which order, behind
 which gates, and which are failed because a predecessor gave no certified output.
 */
module Dispatch {
  import opened Wrappers
  import opened ContinuityGraph
  import opened DescendantFailure

  /**
   The barrier a wave may begin with: none, one that is certified, one that is not, or one
   whose POST finds the parent no longer preparing.
   */
  datatype Barrier = NoBarrier | Releases | Fails | Interrupted

  /**
   What ComfyUI will make of each segment if it is posted: `certified` holds those that
   succeed with exactly one trusted output. `ray` holds the segments on mutable actors.
   `interrupted` are those whose POST finds the parent no longer preparing; `lost` those
   whose POST is refused, loses its response or fails its gate; `overtaken` those after
   whose POST, and settlement if anything waits for it, the parent is found cancelling.
   */
  datatype Outcomes = Outcomes(
    certified: set<SegmentId>,
    ray: set<SegmentId>,
    barriers: map<SegmentId, Barrier>,
    interrupted: set<SegmentId>,
    lost: set<SegmentId>,
    overtaken: set<SegmentId>
  )

  datatype Event =
    | Posted(segment: SegmentId)
    | Settled(segment: SegmentId, certified: bool)
    | BarrierPosted(before: SegmentId)
    | BarrierReleased(before: SegmentId)

  // --- What should happen ------------------------------------------------

  ghost predicate Below(pred: map<SegmentId, SegmentId>, s: SegmentId, p: SegmentId) {
    exists n: nat :: n > 0 && Ancestor(pred, s, n) == Some(p)
  }

  /** A continuation of `p` stands before `p` itself in the plan. */
  ghost predicate DemandedEarly(units: seq<Unit>, p: SegmentId) {
    exists i, j :: 0 <= i < j < |units| && units[j].segment == p && Continues(units[i], p)
  }

  predicate Continues(u: Unit, p: SegmentId) {
    IsSameRun(u) && u.dependency.value.predecessor == p
  }

  ghost predicate Unusable(units: seq<Unit>, certified: set<SegmentId>, p: SegmentId) {
    p !in certified || DemandedEarly(units, p)
  }

  /** Some same-run ancestor gives no certified output in time. */
  ghost predicate Doomed(units: seq<Unit>, certified: set<SegmentId>, s: SegmentId) {
    exists p :: Below(Predecessors(units), s, p) && Unusable(units, certified, p)
  }

  ghost function Admitted(units: seq<Unit>, certified: set<SegmentId>, k: nat): seq<SegmentId>
    requires k <= |units|
  {
    if k == 0 then [] else
      Admitted(units, certified, k - 1)
      + (if Doomed(units, certified, units[k - 1].segment) then [] else [units[k - 1].segment])
  }

  function Posts(log: seq<Event>): seq<SegmentId> {
    if log == [] then [] else
      Posts(log[..|log| - 1])
      + (if log[|log| - 1].Posted? then [log[|log| - 1].segment] else [])
  }

  /** No continuation is posted before its predecessor has settled with a certified output. */
  ghost predicate PredecessorFirst(units: seq<Unit>, log: seq<Event>) {
    forall j | 0 <= j < |log| && log[j].Posted? && log[j].segment in Predecessors(units) ::
      exists i :: 0 <= i < j && log[i] == Settled(Predecessors(units)[log[j].segment], true)
  }

  predicate IsGate(e: Event, graph: map<SegmentId, seq<SegmentId>>, ray: set<SegmentId>) {
    e.BarrierPosted? || (e.Posted? && (e.segment in ray || e.segment in graph))
  }

  predicate Opens(gate: Event, e: Event) {
    if gate.BarrierPosted? then e == BarrierReleased(gate.before) else e.Settled? && gate.Posted? && e.segment == gate.segment
  }

  /** Nothing follows a barrier, a Ray segment or a predecessor but its own settlement. */
  ghost predicate Gated(log: seq<Event>, graph: map<SegmentId, seq<SegmentId>>, ray: set<SegmentId>) {
    forall i, j | 0 <= i && j == i + 1 && j < |log| && IsGate(log[i], graph, ray) :: Opens(log[i], log[j])
  }

  predicate BarrierStops(s: SegmentId, env: Outcomes) {
    s in env.barriers && (env.barriers[s].Fails? || env.barriers[s].Interrupted?)
  }

  predicate LastIs(log: seq<Event>, e: Event) {
    log != [] && log[|log| - 1] == e
  }

  /** What a gate, or a barrier just released, lets happen next. */
  predicate Lets(last: Event, e: Event, graph: map<SegmentId, seq<SegmentId>>, ray: set<SegmentId>) {
    && (IsGate(last, graph, ray) ==> Opens(last, e))
    && (last.BarrierReleased? ==> e == Posted(last.before))
  }

  /** `e` is due after `log`, and says what ComfyUI makes of it. */
  ghost predicate Due(
    units: seq<Unit>, graph: map<SegmentId, seq<SegmentId>>, env: Outcomes, log: seq<Event>, e: Event)
  {
    && (log != [] ==> Lets(log[|log| - 1], e, graph, env.ray))
    && match e
       case BarrierPosted(s) => s in env.barriers && (env.barriers[s].Releases? || env.barriers[s].Fails?)
       case BarrierReleased(s) => s in env.barriers && env.barriers[s].Releases? && LastIs(log, BarrierPosted(s))
       case Posted(s) =>
         && s !in env.interrupted && !BarrierStops(s, env)
         && (s in env.barriers && env.barriers[s].Releases? ==> LastIs(log, BarrierReleased(s)))
         && (s in Predecessors(units) ==> Settled(Predecessors(units)[s], true) in log)
       case Settled(s, ok) => (s in env.ray || s in graph) && (ok <==> s in env.certified) && LastIs(log, Posted(s))
  }

  /** Every event of the log was due when it happened. */
  ghost predicate Faithful(units: seq<Unit>, graph: map<SegmentId, seq<SegmentId>>, env: Outcomes, log: seq<Event>) {
    log != [] ==>
      && Faithful(units, graph, env, log[..|log| - 1])
      && Due(units, graph, env, log[..|log| - 1], log[|log| - 1])
  }

  lemma FaithfulAppend(
    units: seq<Unit>, graph: map<SegmentId, seq<SegmentId>>, env: Outcomes, log: seq<Event>, e: Event)
    requires Faithful(units, graph, env, log) && Due(units, graph, env, log, e)
    ensures Faithful(units, graph, env, log + [e])
  {
    assert (log + [e])[..|log|] == log;
  }

  lemma {:induction false} EveryEventIsDue(
    units: seq<Unit>, graph: map<SegmentId, seq<SegmentId>>, env: Outcomes, log: seq<Event>, j: nat)
    requires Faithful(units, graph, env, log) && j < |log|
    ensures Due(units, graph, env, log[..j], log[j])
    decreases |log|
  {
    if j < |log| - 1 {
      EveryEventIsDue(units, graph, env, log[..|log| - 1], j);
      assert log[..|log| - 1][..j] == log[..j];
    }
  }

  /** The two events before `j` are `a` and `b`. */
  predicate Preceded(log: seq<Event>, j: int, a: Event, b: Event) {
    2 <= j <= |log| && log[j - 2] == a && log[j - 1] == b
  }

  /**
   A segment with a barrier is posted right behind the barrier's own POST and release, no
   segment is posted whose barrier is not released, and no barrier is posted or released
   that the plan does not have.
   */
  ghost predicate Barred(log: seq<Event>, env: Outcomes) {
    && (forall j | 0 <= j < |log| && log[j].Posted? ::
          && !BarrierStops(log[j].segment, env)
          && (log[j].segment in env.barriers && env.barriers[log[j].segment].Releases? ==>
                Preceded(log, j, BarrierPosted(log[j].segment), BarrierReleased(log[j].segment))))
    && (forall j | 0 <= j < |log| && (log[j].BarrierPosted? || log[j].BarrierReleased?) ::
          && log[j].before in env.barriers
          && !env.barriers[log[j].before].NoBarrier? && !env.barriers[log[j].before].Interrupted?)
  }

  lemma FaithfulIsBarred(units: seq<Unit>, graph: map<SegmentId, seq<SegmentId>>, env: Outcomes, log: seq<Event>)
    requires Faithful(units, graph, env, log)
    ensures Barred(log, env)
  {
    forall j | 0 <= j < |log| && log[j].Posted?
      ensures !BarrierStops(log[j].segment, env)
      ensures log[j].segment in env.barriers && env.barriers[log[j].segment].Releases? ==>
                Preceded(log, j, BarrierPosted(log[j].segment), BarrierReleased(log[j].segment))
    {
      EveryEventIsDue(units, graph, env, log, j);
      if log[j].segment in env.barriers && env.barriers[log[j].segment].Releases? {
        EveryEventIsDue(units, graph, env, log, j - 1);
      }
    }
    forall j | 0 <= j < |log| && (log[j].BarrierPosted? || log[j].BarrierReleased?)
      ensures log[j].before in env.barriers && !env.barriers[log[j].before].NoBarrier?
              && !env.barriers[log[j].before].Interrupted?
    {
      EveryEventIsDue(units, graph, env, log, j);
    }
  }

  lemma FaithfulIsOrdered(units: seq<Unit>, graph: map<SegmentId, seq<SegmentId>>, env: Outcomes, log: seq<Event>)
    requires Faithful(units, graph, env, log)
    ensures PredecessorFirst(units, log) && Gated(log, graph, env.ray)
  {
    forall j | 0 <= j < |log| && log[j].Posted? && log[j].segment in Predecessors(units)
      ensures exists i :: 0 <= i < j && log[i] == Settled(Predecessors(units)[log[j].segment], true)
    {
      EveryEventIsDue(units, graph, env, log, j);
      var i :| 0 <= i < |log[..j]| && log[..j][i] == Settled(Predecessors(units)[log[j].segment], true);
      assert log[i] == log[..j][i];
    }
    forall i, j | 0 <= i && j == i + 1 && j < |log| && IsGate(log[i], graph, env.ray) ensures Opens(log[i], log[j]) {
      EveryEventIsDue(units, graph, env, log, j);
    }
  }

  // --- Ancestors, dependents and the doomed ------------------------------

  lemma BelowStep(pred: map<SegmentId, SegmentId>, s: SegmentId, q: SegmentId)
    requires s in pred
    ensures Below(pred, s, q) <==> q == pred[s] || Below(pred, pred[s], q)
  {
    assert Ancestor(pred, s, 0) == Some(s);
    assert Ancestor(pred, s, 1) == Some(pred[s]);
    if Below(pred, s, q) {
      var n: nat :| n > 0 && Ancestor(pred, s, n) == Some(q);
      AncestorOfAncestor(pred, s, 1, n - 1);
    }
    if Below(pred, pred[s], q) {
      var n: nat :| n > 0 && Ancestor(pred, pred[s], n) == Some(q);
      AncestorOfAncestor(pred, s, 1, n);
    }
  }

  lemma NothingBelowRoot(pred: map<SegmentId, SegmentId>, s: SegmentId, q: SegmentId)
    requires s !in pred
    ensures !Below(pred, s, q)
  {
    if Below(pred, s, q) {
      var n: nat :| n > 0 && Ancestor(pred, s, n) == Some(q);
      assert Ancestor(pred, s, 1).None?;
      NoAncestorBeyond(pred, s, 1, n);
    }
  }

  lemma DoomedStep(units: seq<Unit>, certified: set<SegmentId>, s: SegmentId)
    ensures s !in Predecessors(units) ==> !Doomed(units, certified, s)
    ensures s in Predecessors(units) ==>
              (Doomed(units, certified, s) <==>
                 Unusable(units, certified, Predecessors(units)[s]) || Doomed(units, certified, Predecessors(units)[s]))
  {
    var pred := Predecessors(units);
    forall q ensures s !in pred ==> !Below(pred, s, q) {
      if s !in pred { NothingBelowRoot(pred, s, q); }
    }
    if s in pred {
      forall q ensures Below(pred, s, q) <==> q == pred[s] || Below(pred, pred[s], q) {
        BelowStep(pred, s, q);
      }
    }
  }

  ghost predicate Inverts(graph: map<SegmentId, seq<SegmentId>>, pred: map<SegmentId, SegmentId>) {
    && (forall x, y :: y in Dependents(graph, x) <==> y in pred && pred[y] == x)
    && (forall x | x in graph :: graph[x] != [])
  }

  lemma InverseInverts(units: seq<Unit>, graph: map<SegmentId, seq<SegmentId>>)
    requires DistinctSegments(units) && IsInverse(units, graph)
    ensures Inverts(graph, Predecessors(units))
  {
    forall x, y ensures y in Dependents(graph, x) <==> y in Predecessors(units) && Predecessors(units)[y] == x {
      SuccessorsInvertPredecessors(units, x, y);
    }
  }

  lemma {:induction false} PathIsBelow(
    graph: map<SegmentId, seq<SegmentId>>, pred: map<SegmentId, SegmentId>, path: seq<SegmentId>)
    requires Inverts(graph, pred) && IsPath(graph, path)
    ensures Below(pred, path[|path| - 1], path[0])
    decreases |path|
  {
    var last := |path| - 1;
    assert path[last] in Dependents(graph, path[last - 1]);
    BelowStep(pred, path[last], path[0]);
    if last > 1 {
      PathIsBelow(graph, pred, path[..last]);
    }
  }

  lemma {:induction false} AncestorHasPath(
    graph: map<SegmentId, seq<SegmentId>>, pred: map<SegmentId, SegmentId>, s: SegmentId, n: nat, p: SegmentId)
    requires Inverts(graph, pred) && n > 0 && Ancestor(pred, s, n) == Some(p)
    ensures Downstream(graph, p, s)
    decreases n
  {
    assert Ancestor(pred, s, 0) == Some(s);
    if s !in pred {
      assert Ancestor(pred, s, 1).None?;
      NoAncestorBeyond(pred, s, 1, n);
    } else {
      assert Ancestor(pred, s, 1) == Some(pred[s]);
      AncestorOfAncestor(pred, s, 1, n - 1);
      assert s in Dependents(graph, pred[s]);
      if n == 1 {
        DirectIsDownstream(graph, p, s);
      } else {
        AncestorHasPath(graph, pred, pred[s], n - 1, p);
        DownstreamStep(graph, p, pred[s], s);
      }
    }
  }

  lemma DownstreamIsBelow(
    graph: map<SegmentId, seq<SegmentId>>, pred: map<SegmentId, SegmentId>, p: SegmentId, s: SegmentId)
    requires Inverts(graph, pred)
    ensures Downstream(graph, p, s) <==> Below(pred, s, p)
  {
    if Downstream(graph, p, s) {
      var path: seq<SegmentId> :| IsPath(graph, path) && path[0] == p && path[|path| - 1] == s;
      PathIsBelow(graph, pred, path);
    }
    if Below(pred, s, p) {
      var n: nat :| n > 0 && Ancestor(pred, s, n) == Some(p);
      AncestorHasPath(graph, pred, s, n, p);
    }
  }

  // --- The loop invariant ------------------------------------------------

  /** One of the first `i` units is the segment's. */
  predicate Seen(units: seq<Unit>, i: nat, s: SegmentId)
    requires i <= |units|
  {
    i > 0 && (units[i - 1].segment == s || Seen(units, i - 1, s))
  }

  lemma {:induction false} SeenMeaning(units: seq<Unit>, i: nat, s: SegmentId)
    requires i <= |units|
    ensures Seen(units, i, s) <==> exists j :: 0 <= j < i && units[j].segment == s
  {
    if i > 0 { SeenMeaning(units, i - 1, s); }
  }

  predicate Follows(pred: map<SegmentId, SegmentId>, y: SegmentId, p: SegmentId) {
    y in pred && pred[y] == p
  }

  predicate ContinuationsFailed(pred: map<SegmentId, SegmentId>, failed: set<SegmentId>, p: SegmentId) {
    forall y | y in pred && Follows(pred, y, p) :: y in failed
  }

  /** The unit at `j` continues a segment that has not been visited before it. */
  predicate Premature(units: seq<Unit>, j: nat)
    requires j < |units|
  {
    var pred := Predecessors(units);
    units[j].segment in pred && !Seen(units, j, pred[units[j].segment])
  }

  /** After `i` units: what has been failed so far, and whose outputs are certified. */
  ghost predicate Progress(
    units: seq<Unit>, certified: set<SegmentId>, i: nat, failed: set<SegmentId>, outputs: set<SegmentId>)
    requires i <= |units|
  {
    var pred := Predecessors(units);
    && (forall s | s in failed :: s in pred && Doomed(units, certified, s))
    && (forall y, p | Follows(pred, y, p) && p in failed :: y in failed)
    && (forall s | s in failed && s in pred :: ContinuationsFailed(pred, failed, pred[s]))
    && (forall s | Seen(units, i, s) && Doomed(units, certified, s) :: s in failed)
    && (forall s | s in outputs :: Seen(units, i, s) && s !in failed && s in certified)
    && (forall s, y | Seen(units, i, s) && s !in failed && Follows(pred, y, s) ::
          if s in certified then s in outputs else y in failed)
    && (forall j: nat {:trigger Premature(units, j)} | j < i && Premature(units, j) :: units[j].segment in failed)
  }

  ghost predicate ValidPlan(units: seq<Unit>, graph: map<SegmentId, seq<SegmentId>>) {
    WellFormed(units) && !Cyclic(Predecessors(units)) && IsInverse(units, graph)
  }

  ghost function DownstreamSet(pred: map<SegmentId, SegmentId>, p: SegmentId): set<SegmentId> {
    set s | s in pred && Below(pred, s, p)
  }

  /** The predecessor of every unit is itself a unit of the plan. */
  lemma PredecessorIsUnit(units: seq<Unit>, s: SegmentId)
    requires WellFormed(units) && s in Predecessors(units)
    ensures exists j :: 0 <= j < |units| && units[j].segment == Predecessors(units)[s]
    ensures exists i :: 0 <= i < |units| && units[i].segment == s && Continues(units[i], Predecessors(units)[s])
  {
    PredecessorsMeaning(units);
    var u :| u in units && u.segment == s && IsSameRun(u);
    assert ValidDependency(Segments(units), u.dependency.value);
  }

  lemma NotItsOwnPredecessor(pred: map<SegmentId, SegmentId>, s: SegmentId)
    requires !Cyclic(pred)
    ensures !Below(pred, s, s)
    ensures s in pred ==> pred[s] != s
  {
    assert Ancestor(pred, s, 0) == Some(s);
    if s in pred { assert Ancestor(pred, s, 1) == Some(pred[s]); }
  }

  /** Failing everything downstream of an unusable predecessor keeps the invariant. */
  lemma FailingKeeps(
    units: seq<Unit>, certified: set<SegmentId>, i: nat,
    failed: set<SegmentId>, outputs: set<SegmentId>, p: SegmentId)
    requires WellFormed(units) && i <= |units|
    requires Progress(units, certified, i, failed, outputs) && Unusable(units, certified, p)
    ensures Progress(units, certified, i, failed + DownstreamSet(Predecessors(units), p), outputs)
  {
    var pred := Predecessors(units);
    var more := DownstreamSet(pred, p);
    forall s | s in more ensures Doomed(units, certified, s) {
      assert Below(pred, s, p);
    }
    forall y | y in pred ensures pred[y] == p || pred[y] in more <==> y in more {
      BelowStep(pred, y, p);
      if Below(pred, pred[y], p) && pred[y] !in pred { NothingBelowRoot(pred, pred[y], p); }
    }
  }

  lemma SkippingKeeps(
    units: seq<Unit>, certified: set<SegmentId>, i: nat, failed: set<SegmentId>, outputs: set<SegmentId>)
    requires WellFormed(units) && i < |units| && units[i].segment in failed
    requires Progress(units, certified, i, failed, outputs)
    ensures Progress(units, certified, i + 1, failed, outputs)
  {
  }

  /** The continuation of a visited segment that gave no output has been failed. */
  lemma SeenWithoutOutput(
    units: seq<Unit>, certified: set<SegmentId>, i: nat, failed: set<SegmentId>, outputs: set<SegmentId>,
    s: SegmentId, p: SegmentId)
    requires i <= |units| && Progress(units, certified, i, failed, outputs)
    requires Follows(Predecessors(units), s, p) && Seen(units, i, p) && p !in outputs
    ensures s in failed
  {
  }

  /** A continuation whose predecessor has no certified output yet is rightly doomed. */
  lemma MissingOutputIsUnusable(
    units: seq<Unit>, certified: set<SegmentId>, i: nat, failed: set<SegmentId>, outputs: set<SegmentId>)
    requires WellFormed(units) && !Cyclic(Predecessors(units)) && i < |units|
    requires Progress(units, certified, i, failed, outputs)
    requires units[i].segment !in failed && units[i].segment in Predecessors(units)
    requires Predecessors(units)[units[i].segment] !in outputs
    ensures Unusable(units, certified, Predecessors(units)[units[i].segment])
    ensures units[i].segment in DownstreamSet(Predecessors(units), Predecessors(units)[units[i].segment])
  {
    var pred := Predecessors(units);
    var p := pred[units[i].segment];
    BelowStep(pred, units[i].segment, p);
    assert !Seen(units, i, p) by {
      if Seen(units, i, p) { SeenWithoutOutput(units, certified, i, failed, outputs, units[i].segment, p); }
    }
    LaterPredecessorIsDemandedEarly(units, i);
  }

  lemma LaterPredecessorIsDemandedEarly(units: seq<Unit>, i: nat)
    requires WellFormed(units) && !Cyclic(Predecessors(units)) && i < |units|
    requires units[i].segment in Predecessors(units)
    requires !Seen(units, i, Predecessors(units)[units[i].segment])
    ensures DemandedEarly(units, Predecessors(units)[units[i].segment])
  {
    var s := units[i].segment;
    var p := Predecessors(units)[s];
    NotItsOwnPredecessor(Predecessors(units), s);
    PredecessorIsUnit(units, s);
    var j :| 0 <= j < |units| && units[j].segment == p;
    var k :| 0 <= k < |units| && units[k].segment == s && Continues(units[k], p);
    SeenMeaning(units, i, p);
    assert k == i && i < j;
  }

  /** Where the units of a plan stand decides what has been seen. */
  lemma SeenBefore(units: seq<Unit>, b: nat, i: nat)
    requires DistinctSegments(units) && b < |units| && i <= |units|
    ensures Seen(units, i, units[b].segment) <==> b < i
  {
    SeenMeaning(units, i, units[b].segment);
  }

  /** A predecessor already visited that was demanded early had a continuation failed for it. */
  lemma EarlyDemandWasFailed(
    units: seq<Unit>, certified: set<SegmentId>, i: nat, failed: set<SegmentId>, outputs: set<SegmentId>, p: SegmentId)
    requires WellFormed(units) && i <= |units| && Progress(units, certified, i, failed, outputs)
    requires Seen(units, i, p) && DemandedEarly(units, p)
    ensures exists y :: y in failed && Follows(Predecessors(units), y, p)
  {
    var a, b :| 0 <= a < b < |units| && units[b].segment == p && Continues(units[a], p);
    SeenBefore(units, b, i);
    SeenBefore(units, b, a);
    EarlyUnitIsPremature(units, a, p);
    assert units[a].segment in failed;
  }

  lemma EarlyUnitIsPremature(units: seq<Unit>, a: nat, p: SegmentId)
    requires WellFormed(units) && a < |units| && Continues(units[a], p) && !Seen(units, a, p)
    ensures Premature(units, a) && Follows(Predecessors(units), units[a].segment, p)
  {
    PredecessorsMeaning(units);
    assert units[a] in units;
  }

  /** A segment that reaches its POST is not doomed. */
  lemma PostingIsRight(
    units: seq<Unit>, certified: set<SegmentId>, i: nat, failed: set<SegmentId>, outputs: set<SegmentId>)
    requires WellFormed(units) && i < |units|
    requires Progress(units, certified, i, failed, outputs)
    requires units[i].segment !in failed
    requires units[i].segment in Predecessors(units) ==> Predecessors(units)[units[i].segment] in outputs
    ensures !Doomed(units, certified, units[i].segment)
  {
    DoomedStep(units, certified, units[i].segment);
    var pred, segment := Predecessors(units), units[i].segment;
    if segment in pred {
      assert Follows(pred, segment, pred[segment]);
      if DemandedEarly(units, pred[segment]) {
        EarlyDemandWasFailed(units, certified, i, failed, outputs, pred[segment]);
      }
    }
  }

  lemma PostedKeeps(
    units: seq<Unit>, certified: set<SegmentId>, i: nat,
    failed: set<SegmentId>, outputs: set<SegmentId>, outputs': set<SegmentId>)
    requires WellFormed(units) && !Cyclic(Predecessors(units)) && i < |units|
    requires Progress(units, certified, i, failed, outputs)
    requires units[i].segment !in failed
    requires units[i].segment in Predecessors(units) ==> Predecessors(units)[units[i].segment] in outputs
    requires outputs <= outputs' <= outputs + {units[i].segment}
    requires units[i].segment in outputs' ==> units[i].segment in certified
    requires forall y | y in Predecessors(units) && Predecessors(units)[y] == units[i].segment ::
               if units[i].segment in certified then units[i].segment in outputs' else y in failed
    ensures Progress(units, certified, i + 1, failed, outputs')
  {
    PostingIsRight(units, certified, i, failed, outputs);
    var segment := units[i].segment;
    forall s | Seen(units, i + 1, s) && Doomed(units, certified, s) ensures s in failed {
      assert s != segment;
    }
    forall j: nat | j < i + 1 && Premature(units, j) ensures units[j].segment in failed {
      assert j != i;
    }
  }

  // --- The loop ----------------------------------------------------------

  lemma PostsAppend(log: seq<Event>, e: Event)
    ensures Posts(log + [e]) == if e.Posted? then Posts(log) + [e.segment] else Posts(log)
  {
    assert (log + [e])[..|log|] == log;
  }

  /** Nothing is half done: the log ends neither with a gate nor with a released barrier. */
  predicate Open(log: seq<Event>, graph: map<SegmentId, seq<SegmentId>>, ray: set<SegmentId>) {
    log != [] ==> !IsGate(log[|log| - 1], graph, ray) && !log[|log| - 1].BarrierReleased?
  }

  /** The child rows once `i` units have been visited. */
  predicate RowsMatch(units: seq<Unit>, i: nat, failed: set<SegmentId>, rows: map<SegmentId, ChildState>)
    requires i <= |units|
  {
    rows == map s | s in Segments(units) ::
              if s in failed then DependencyFailed else if Seen(units, i, s) then Submitted else Unsubmitted
  }

  lemma FailedRowsMatch(
    units: seq<Unit>, k: nat, failed: set<SegmentId>, more: set<SegmentId>, rows: map<SegmentId, ChildState>)
    requires k <= |units| && RowsMatch(units, k, failed, rows)
    requires forall s | s in more && Seen(units, k, s) :: s in failed
    ensures RowsMatch(units, k, failed + more, FailRows(rows, true, more))
  {
  }

  /** Fail everything downstream of a predecessor that will give no certified output. */
  method FailBelow(
    units: seq<Unit>, graph: map<SegmentId, seq<SegmentId>>, ghost certified: set<SegmentId>, ghost i: nat, ghost k: nat,
    store: ChildStore, failed: set<SegmentId>, ghost outputs: set<SegmentId>, p: SegmentId)
    returns (failed': set<SegmentId>)
    requires ValidPlan(units, graph) && i <= |units| && k <= |units| && store.dispatching
    requires Progress(units, certified, i, failed, outputs) && Unusable(units, certified, p)
    requires RowsMatch(units, k, failed, store.rows)
    requires forall s | s in DownstreamSet(Predecessors(units), p) && Seen(units, k, s) :: s in failed
    modifies store`rows
    ensures failed' == failed + DownstreamSet(Predecessors(units), p)
    ensures Progress(units, certified, i, failed', outputs)
    ensures RowsMatch(units, k, failed', store.rows)
  {
    ghost var pred := Predecessors(units);
    var more := FailContinuityDescendants(store, graph, p);
    InverseInverts(units, graph);
    forall s ensures s in more <==> s in pred && Below(pred, s, p) {
      DownstreamIsBelow(graph, pred, p, s);
      if s !in pred { NothingBelowRoot(pred, s, p); }
    }
    FailingKeeps(units, certified, i, failed, outputs, p);
    FailedRowsMatch(units, k, failed, more, old(store.rows));
    failed' := failed + more;
  }

  /** What holds of the log as long as nothing has stopped the loop. */
  ghost predicate Logged(
    units: seq<Unit>, graph: map<SegmentId, seq<SegmentId>>, env: Outcomes, posts: seq<SegmentId>,
    outputs: set<SegmentId>, log: seq<Event>)
  {
    && Faithful(units, graph, env, log)
    && Posts(log) == posts
    && (forall s | s in outputs :: Settled(s, true) in log)
  }

  /** One more event that is due. */
  lemma LoggedAppend(
    units: seq<Unit>, graph: map<SegmentId, seq<SegmentId>>, env: Outcomes, posts: seq<SegmentId>,
    outputs: set<SegmentId>, log: seq<Event>, e: Event)
    requires Logged(units, graph, env, posts, outputs, log) && Due(units, graph, env, log, e)
    ensures Logged(units, graph, env, if e.Posted? then posts + [e.segment] else posts, outputs, log + [e])
  {
    FaithfulAppend(units, graph, env, log, e);
    PostsAppend(log, e);
  }

  /**
   The barrier a wave may begin with: nothing follows it but its own certified release,
   and then the segment it stands before.
   */
  method PassBarrier(
    units: seq<Unit>, graph: map<SegmentId, seq<SegmentId>>, env: Outcomes, ghost posts: seq<SegmentId>,
    ghost outputs: set<SegmentId>, log: seq<Event>, segment: SegmentId)
    returns (log': seq<Event>, released: bool)
    requires Logged(units, graph, env, posts, outputs, log) && Open(log, graph, env.ray)
    requires segment in Predecessors(units) ==> Predecessors(units)[segment] in outputs
    ensures Logged(units, graph, env, posts, outputs, log')
    ensures released <==> !BarrierStops(segment, env)
    ensures released && segment !in env.interrupted ==> Due(units, graph, env, log', Posted(segment))
    ensures segment in env.barriers && env.barriers[segment].Fails? ==> LastIs(log', BarrierPosted(segment))
    ensures segment in env.barriers && env.barriers[segment].Releases? ==> LastIs(log', BarrierReleased(segment))
    ensures segment !in env.barriers || env.barriers[segment].NoBarrier? || env.barriers[segment].Interrupted? ==> log' == log
  {
    log', released := log, true;
    if segment in env.barriers && env.barriers[segment].Interrupted? {
      released := false;
    } else if segment in env.barriers && !env.barriers[segment].NoBarrier? {
      LoggedAppend(units, graph, env, posts, outputs, log, BarrierPosted(segment));
      log' := log + [BarrierPosted(segment)];
      if env.barriers[segment].Fails? {
        released := false;
      } else {
        LoggedAppend(units, graph, env, posts, outputs, log', BarrierReleased(segment));
        log' := log' + [BarrierReleased(segment)];
      }
    }
  }

  /** The run breaks off after this segment's POST. */
  predicate BreaksAt(s: SegmentId, env: Outcomes) {
    s in env.lost || s in env.overtaken
  }

  /** The POST of a segment is the last event, or its settlement when something waits for that. */
  predicate EndsPosted(s: SegmentId, graph: map<SegmentId, seq<SegmentId>>, env: Outcomes, log: seq<Event>) {
    if s !in env.lost && (s in env.ray || s in graph)
    then LastIs(log, Settled(s, s in env.certified)) else LastIs(log, Posted(s))
  }

  /**
   Post one segment, and when anything waits on it, follow it to its settlement. A lost
   POST or gate breaks off at once, an overtaken one after the settlement.
   */
  method PostSegment(
    units: seq<Unit>, graph: map<SegmentId, seq<SegmentId>>, env: Outcomes, ghost posts: seq<SegmentId>,
    ghost outputs: set<SegmentId>, log: seq<Event>, segment: SegmentId)
    returns (log': seq<Event>, broken: bool)
    requires Logged(units, graph, env, posts, outputs, log) && Due(units, graph, env, log, Posted(segment))
    ensures Logged(units, graph, env, posts + [segment], outputs, log')
    ensures broken <==> BreaksAt(segment, env)
    ensures EndsPosted(segment, graph, env, log')
    ensures !broken ==> Open(log', graph, env.ray)
    ensures !broken && segment in graph && segment in env.certified ==> Settled(segment, true) in log'
  {
    LoggedAppend(units, graph, env, posts, outputs, log, Posted(segment));
    log' := log + [Posted(segment)];
    if segment in env.lost {
      return log', true;
    }
    broken := segment in env.overtaken;
    if segment in env.ray || segment in graph {
      var settled := Settled(segment, segment in env.certified);
      LoggedAppend(units, graph, env, posts + [segment], outputs, log', settled);
      log' := log' + [settled];
    }
  }

  lemma SubmittedRowsMatch(units: seq<Unit>, i: nat, failed: set<SegmentId>, rows: map<SegmentId, ChildState>)
    requires i < |units| && RowsMatch(units, i, failed, rows) && units[i].segment !in failed
    ensures RowsMatch(units, i + 1, failed, rows[units[i].segment := Submitted])
  {
    assert units[i] in units;
  }

  lemma SkippedRowsMatch(units: seq<Unit>, i: nat, failed: set<SegmentId>, rows: map<SegmentId, ChildState>)
    requires i < |units| && RowsMatch(units, i, failed, rows) && units[i].segment in failed
    ensures RowsMatch(units, i + 1, failed, rows)
  {
  }

  ghost predicate Visiting(
    units: seq<Unit>, graph: map<SegmentId, seq<SegmentId>>, env: Outcomes, i: nat,
    failed: set<SegmentId>, outputs: set<SegmentId>, log: seq<Event>, rows: map<SegmentId, ChildState>)
    requires i <= |units|
  {
    var progressed := Progress(units, env.certified, i, failed, outputs);
    var matched := RowsMatch(units, i, failed, rows);
    var logged := Logged(units, graph, env, Unfailed(units, failed, i), outputs, log) && Open(log, graph, env.ray);
    var visiting := progressed && matched && logged;
    visiting
  }

  lemma VisitingStarts(
    units: seq<Unit>, graph: map<SegmentId, seq<SegmentId>>, env: Outcomes, rows: map<SegmentId, ChildState>)
    requires rows == map s | s in Segments(units) :: Unsubmitted
    ensures Visiting(units, graph, env, 0, {}, {}, [], rows)
  {
  }

  lemma VisitingEnds(
    units: seq<Unit>, graph: map<SegmentId, seq<SegmentId>>, env: Outcomes,
    failed: set<SegmentId>, outputs: set<SegmentId>, log: seq<Event>, rows: map<SegmentId, ChildState>)
    requires Visiting(units, graph, env, |units|, failed, outputs, log, rows)
    ensures rows == map s | s in Segments(units) ::
                      if Doomed(units, env.certified, s) then DependencyFailed else Submitted
    ensures Posts(log) == Admitted(units, env.certified, |units|)
    ensures Faithful(units, graph, env, log)
  {
    forall s | s in Segments(units) ensures Seen(units, |units|, s) {
      var u :| u in units && u.segment == s;
      SeenMeaning(units, |units|, s);
    }
    UnfailedAreAdmitted(units, env.certified, |units|, failed, outputs, |units|);
  }

  /** The unit at which a run may stop: interrupted, or behind a barrier that is not released. */
  predicate StopsAt(u: Unit, env: Outcomes) {
    u.segment in env.interrupted || BarrierStops(u.segment, env)
  }

  /** A run that stops before a POST has posted the failing barrier, or released the one in front. */
  predicate StopsWith(s: SegmentId, env: Outcomes, log: seq<Event>) {
    s in env.barriers ==>
      && (env.barriers[s].Fails? ==> LastIs(log, BarrierPosted(s)))
      && (env.barriers[s].Releases? ==> LastIs(log, BarrierReleased(s)))
  }

  ghost predicate FailedRightly(units: seq<Unit>, certified: set<SegmentId>, rows: map<SegmentId, ChildState>) {
    forall s | s in rows && rows[s].DependencyFailed? :: Doomed(units, certified, s)
  }

  lemma MatchingRowsFailRightly(
    units: seq<Unit>, certified: set<SegmentId>, i: nat, k: nat, failed: set<SegmentId>, outputs: set<SegmentId>,
    rows: map<SegmentId, ChildState>)
    requires i <= |units| && k <= |units| && Progress(units, certified, i, failed, outputs) && RowsMatch(units, k, failed, rows)
    ensures FailedRightly(units, certified, rows)
  {
  }

  /**
   A run that ended at unit `i`, before its POST or after it, still kept every order,
   posted exactly what was admitted up to there and failed only doomed segments.
   */
  ghost predicate Halted(
    units: seq<Unit>, graph: map<SegmentId, seq<SegmentId>>, env: Outcomes, i: nat,
    log: seq<Event>, rows: map<SegmentId, ChildState>)
    requires i < |units|
  {
    var faithful := Faithful(units, graph, env, log);
    var ended :=
      || (StopsAt(units[i], env) && StopsWith(units[i].segment, env, log) && Posts(log) == Admitted(units, env.certified, i))
      || (BreaksAt(units[i].segment, env) && EndsPosted(units[i].segment, graph, env, log)
          && Posts(log) == Admitted(units, env.certified, i + 1));
    var halted := faithful && ended && FailedRightly(units, env.certified, rows);
    halted
  }

  /** The units visited so far that are not failed. */
  function Unfailed(units: seq<Unit>, failed: set<SegmentId>, k: nat): seq<SegmentId>
    requires k <= |units|
  {
    if k == 0 then [] else
      Unfailed(units, failed, k - 1) + (if units[k - 1].segment in failed then [] else [units[k - 1].segment])
  }

  lemma FailedAreDoomed(
    units: seq<Unit>, certified: set<SegmentId>, i: nat, failed: set<SegmentId>, outputs: set<SegmentId>, j: nat)
    requires j < i <= |units| && Progress(units, certified, i, failed, outputs)
    ensures units[j].segment in failed <==> Doomed(units, certified, units[j].segment)
  {
    SeenMeaning(units, i, units[j].segment);
  }

  /** While the invariant holds these are the admitted ones. */
  lemma {:induction false} UnfailedAreAdmitted(
    units: seq<Unit>, certified: set<SegmentId>, i: nat, failed: set<SegmentId>, outputs: set<SegmentId>, k: nat)
    requires k <= i <= |units| && Progress(units, certified, i, failed, outputs)
    ensures Unfailed(units, failed, k) == Admitted(units, certified, k)
  {
    if k > 0 {
      UnfailedAreAdmitted(units, certified, i, failed, outputs, k - 1);
      FailedAreDoomed(units, certified, i, failed, outputs, k - 1);
    }
  }

  lemma SettledVisit(
    units: seq<Unit>, graph: map<SegmentId, seq<SegmentId>>, env: Outcomes, i: nat,
    failed: set<SegmentId>, outputs: set<SegmentId>, outputs': set<SegmentId>, log: seq<Event>,
    rows: map<SegmentId, ChildState>)
    requires i < |units|
    requires Progress(units, env.certified, i + 1, failed, outputs') && RowsMatch(units, i + 1, failed, rows)
    requires Logged(units, graph, env, Admitted(units, env.certified, i + 1), outputs, log) && Open(log, graph, env.ray)
    requires forall s | s in outputs' && s !in outputs :: Settled(s, true) in log
    ensures Visiting(units, graph, env, i + 1, failed, outputs', log, rows)
  {
    UnfailedAreAdmitted(units, env.certified, i + 1, failed, outputs', i + 1);
  }

  lemma AdmittedNext(
    units: seq<Unit>, certified: set<SegmentId>, i: nat, failed: set<SegmentId>, outputs: set<SegmentId>)
    requires WellFormed(units) && i < |units|
    requires Progress(units, certified, i, failed, outputs)
    requires units[i].segment !in failed
    requires units[i].segment in Predecessors(units) ==> Predecessors(units)[units[i].segment] in outputs
    ensures Admitted(units, certified, i + 1) == Admitted(units, certified, i) + [units[i].segment]
  {
    PostingIsRight(units, certified, i, failed, outputs);
  }

  /** A run that breaks off after a POST. */
  lemma BrokenOff(
    units: seq<Unit>, graph: map<SegmentId, seq<SegmentId>>, env: Outcomes, i: nat,
    failed: set<SegmentId>, outputs: set<SegmentId>, log: seq<Event>, rows: map<SegmentId, ChildState>)
    requires i < |units| && Progress(units, env.certified, i, failed, outputs) && RowsMatch(units, i + 1, failed, rows)
    requires Logged(units, graph, env, Admitted(units, env.certified, i + 1), outputs, log)
    requires BreaksAt(units[i].segment, env) && EndsPosted(units[i].segment, graph, env, log)
    ensures Halted(units, graph, env, i, log, rows)
  {
    MatchingRowsFailRightly(units, env.certified, i, i + 1, failed, outputs, rows);
  }

  /** Submit and post a unit whose barrier, if it has one, was released. */
  method SubmitUnit(
    units: seq<Unit>, graph: map<SegmentId, seq<SegmentId>>, env: Outcomes, i: nat, store: ChildStore,
    failed: set<SegmentId>, outputs: set<SegmentId>, log: seq<Event>)
    returns (failed': set<SegmentId>, outputs': set<SegmentId>, log': seq<Event>, stopped: bool)
    requires ValidPlan(units, graph) && i < |units| && store.dispatching
    requires Progress(units, env.certified, i, failed, outputs) && RowsMatch(units, i, failed, store.rows)
    requires units[i].segment !in failed
    requires units[i].segment in Predecessors(units) ==> Predecessors(units)[units[i].segment] in outputs
    requires Logged(units, graph, env, Admitted(units, env.certified, i), outputs, log)
    requires Due(units, graph, env, log, Posted(units[i].segment))
    modifies store`rows
    ensures !stopped ==> Visiting(units, graph, env, i + 1, failed', outputs', log', store.rows)
    ensures stopped ==> Halted(units, graph, env, i, log', store.rows)
  {
    failed', outputs' := failed, outputs;
    var segment := units[i].segment;
    SubmittedRowsMatch(units, i, failed, store.rows);
    store.Submit(segment);
    AdmittedNext(units, env.certified, i, failed, outputs);
    log', stopped := PostSegment(units, graph, env, Admitted(units, env.certified, i), outputs, log, segment);
    if stopped {
      BrokenOff(units, graph, env, i, failed, outputs, log', store.rows);
    } else {
      failed', outputs' := SettleUnit(units, graph, env, i, store, failed, outputs);
      SettledVisit(units, graph, env, i, failed', outputs, outputs', log', store.rows);
    }
  }

  /** Visit a unit that is not failed and whose predecessor, if it has one, gave its output. */
  method PostUnit(
    units: seq<Unit>, graph: map<SegmentId, seq<SegmentId>>, env: Outcomes, i: nat, store: ChildStore,
    failed: set<SegmentId>, outputs: set<SegmentId>, log: seq<Event>)
    returns (failed': set<SegmentId>, outputs': set<SegmentId>, log': seq<Event>, stopped: bool)
    requires ValidPlan(units, graph) && i < |units| && store.dispatching
    requires Visiting(units, graph, env, i, failed, outputs, log, store.rows)
    requires units[i].segment !in failed
    requires units[i].segment in Predecessors(units) ==> Predecessors(units)[units[i].segment] in outputs
    modifies store`rows
    ensures !stopped ==> Visiting(units, graph, env, i + 1, failed', outputs', log', store.rows)
    ensures stopped ==> Halted(units, graph, env, i, log', store.rows)
  {
    var segment := units[i].segment;
    UnfailedAreAdmitted(units, env.certified, i, failed, outputs, i);
    var released;
    log', released := PassBarrier(units, graph, env, Admitted(units, env.certified, i), outputs, log, segment);
    if !released || segment in env.interrupted {
      MatchingRowsFailRightly(units, env.certified, i, i, failed, outputs, store.rows);
      return failed, outputs, log', true;
    }
    failed', outputs', log', stopped := SubmitUnit(units, graph, env, i, store, failed, outputs, log');
  }

  /** What a posted unit leaves to those that continue it: its output, or their failure. */
  method SettleUnit(
    units: seq<Unit>, graph: map<SegmentId, seq<SegmentId>>, env: Outcomes, i: nat, store: ChildStore,
    failed: set<SegmentId>, outputs: set<SegmentId>)
    returns (failed': set<SegmentId>, outputs': set<SegmentId>)
    requires ValidPlan(units, graph) && i < |units| && store.dispatching
    requires Progress(units, env.certified, i, failed, outputs) && RowsMatch(units, i + 1, failed, store.rows)
    requires units[i].segment !in failed
    requires units[i].segment in Predecessors(units) ==> Predecessors(units)[units[i].segment] in outputs
    modifies store`rows
    ensures Progress(units, env.certified, i + 1, failed', outputs') && RowsMatch(units, i + 1, failed', store.rows)
    ensures outputs' == if units[i].segment in graph && units[i].segment in env.certified
                        then outputs + {units[i].segment} else outputs
  {
    failed', outputs' := failed, outputs;
    var segment := units[i].segment;
    if segment in graph {
      if segment in env.certified {
        outputs' := outputs + {segment};
      } else {
        OnlyOthersBelow(units, env.certified, i, failed, outputs);
        failed' := FailBelow(units, graph, env.certified, i, i + 1, store, failed, outputs, segment);
      }
    }
    SettledKeeps(units, graph, env.certified, i, failed, outputs, failed', outputs');
  }

  /** Visit the plan's next unit. */
  method VisitUnit(
    units: seq<Unit>, graph: map<SegmentId, seq<SegmentId>>, env: Outcomes, i: nat, store: ChildStore,
    failed: set<SegmentId>, outputs: set<SegmentId>, log: seq<Event>)
    returns (failed': set<SegmentId>, outputs': set<SegmentId>, log': seq<Event>, stopped: bool)
    requires ValidPlan(units, graph) && i < |units| && store.dispatching
    requires Visiting(units, graph, env, i, failed, outputs, log, store.rows)
    modifies store`rows
    ensures !stopped ==> Visiting(units, graph, env, i + 1, failed', outputs', log', store.rows)
    ensures stopped ==> Halted(units, graph, env, i, log', store.rows)
  {
    var unit := units[i];
    var segment := unit.segment;
    PredecessorAt(units, i);
    if segment in failed {
      SkippedVisit(units, graph, env, i, failed, outputs, log, store.rows);
      return failed, outputs, log, false;
    }
    if IsSameRun(unit) && unit.dependency.value.predecessor !in outputs {
      var p := unit.dependency.value.predecessor;
      UnfailedAreAdmitted(units, env.certified, i, failed, outputs, i);
      MissingOutputIsUnusable(units, env.certified, i, failed, outputs);
      failed' := FailBelow(units, graph, env.certified, i, i, store, failed, outputs, p);
      UnfailedAreAdmitted(units, env.certified, i, failed', outputs, i);
      SkippedVisit(units, graph, env, i, failed', outputs, log, store.rows);
      return failed', outputs, log, false;
    }
    failed', outputs', log', stopped := PostUnit(units, graph, env, i, store, failed, outputs, log);
  }

  /** A failed unit is passed over. */
  lemma SkippedVisit(
    units: seq<Unit>, graph: map<SegmentId, seq<SegmentId>>, env: Outcomes, i: nat,
    failed: set<SegmentId>, outputs: set<SegmentId>, log: seq<Event>, rows: map<SegmentId, ChildState>)
    requires WellFormed(units) && i < |units| && units[i].segment in failed
    requires Visiting(units, graph, env, i, failed, outputs, log, rows)
    ensures Visiting(units, graph, env, i + 1, failed, outputs, log, rows)
  {
    SkippingKeeps(units, env.certified, i, failed, outputs);
    SkippedRowsMatch(units, i, failed, rows);
  }

  lemma PredecessorAt(units: seq<Unit>, i: nat)
    requires WellFormed(units) && i < |units|
    ensures units[i].segment in Predecessors(units) <==> IsSameRun(units[i])
    ensures IsSameRun(units[i]) ==> Predecessors(units)[units[i].segment] == units[i].dependency.value.predecessor
  {
    PredecessorsMeaning(units);
    assert units[i] in units;
  }

  /** Nothing already visited that stands below the unit just posted escaped failure. */
  lemma OnlyOthersBelow(
    units: seq<Unit>, certified: set<SegmentId>, i: nat, failed: set<SegmentId>, outputs: set<SegmentId>)
    requires WellFormed(units) && !Cyclic(Predecessors(units)) && i < |units|
    requires Progress(units, certified, i, failed, outputs) && units[i].segment !in certified
    ensures forall s | s in DownstreamSet(Predecessors(units), units[i].segment) && Seen(units, i + 1, s) :: s in failed
  {
    var pred := Predecessors(units);
    NotItsOwnPredecessor(pred, units[i].segment);
    forall s | s in DownstreamSet(pred, units[i].segment) && Seen(units, i + 1, s) ensures s in failed {
      assert Doomed(units, certified, s);
    }
  }

  lemma SettledKeeps(
    units: seq<Unit>, graph: map<SegmentId, seq<SegmentId>>, certified: set<SegmentId>, i: nat,
    failed: set<SegmentId>, outputs: set<SegmentId>, failed': set<SegmentId>, outputs': set<SegmentId>)
    requires ValidPlan(units, graph) && i < |units|
    requires Progress(units, certified, i, failed', outputs)
    requires units[i].segment !in failed
    requires units[i].segment in Predecessors(units) ==> Predecessors(units)[units[i].segment] in outputs
    requires var s := units[i].segment;
             if s !in graph then failed' == failed && outputs' == outputs
             else if s in certified then failed' == failed && outputs' == outputs + {s}
             else failed' == failed + DownstreamSet(Predecessors(units), s) && outputs' == outputs
    ensures Progress(units, certified, i + 1, failed', outputs')
  {
    var pred := Predecessors(units);
    var s := units[i].segment;
    InverseInverts(units, graph);
    NotItsOwnPredecessor(pred, s);
    forall y | y in pred && pred[y] == s ensures s in graph && y in DownstreamSet(pred, s) {
      assert y in Dependents(graph, s);
      BelowStep(pred, y, s);
    }
    PostedKeeps(units, certified, i, failed', outputs, outputs');
  }

  lemma {:induction false} AdmittedGrows(units: seq<Unit>, certified: set<SegmentId>, i: nat, k: nat)
    requires i <= k <= |units|
    ensures Admitted(units, certified, i) <= Admitted(units, certified, k)
    decreases k
  {
    if i < k { AdmittedGrows(units, certified, i, k - 1); }
  }

  /** The dispatch loop; `reached` is the number of units visited. */
  method RunUnits(units: seq<Unit>, graph: map<SegmentId, seq<SegmentId>>, env: Outcomes, store: ChildStore)
    returns (log: seq<Event>, reached: nat, failed: set<SegmentId>, outputs: set<SegmentId>)
    requires ValidPlan(units, graph) && store.dispatching
    requires Visiting(units, graph, env, 0, {}, {}, [], store.rows)
    modifies store`rows
    ensures reached <= |units|
    ensures reached < |units| ==> Halted(units, graph, env, reached, log, store.rows)
    ensures reached == |units| ==> Visiting(units, graph, env, |units|, failed, outputs, log, store.rows)
  {
    log, reached, failed, outputs := [], 0, {}, {};
    while reached < |units|
      invariant reached <= |units| && store.dispatching
      invariant Visiting(units, graph, env, reached, failed, outputs, log, store.rows)
    {
      var stopped;
      failed, outputs, log, stopped := VisitUnit(units, graph, env, reached, store, failed, outputs, log);
      if stopped {
        return;
      }
      reached := reached + 1;
    }
  }

  /** The run ended at this unit, and the log with what had happened there. */
  predicate Interrupts(u: Unit, graph: map<SegmentId, seq<SegmentId>>, env: Outcomes, log: seq<Event>) {
    || (StopsAt(u, env) && StopsWith(u.segment, env, log))
    || (BreaksAt(u.segment, env) && EndsPosted(u.segment, graph, env, log))
  }

  /**
   Dispatch a whole validated plan against any behaviour of ComfyUI. Whatever happens, a
   continuation follows its certified predecessor, nothing overtakes a gate, a segment with
   a barrier follows the barrier's POST and release, every event was due, the posts are
   an initial part of the admitted segments in plan order, and only doomed segments are
   failed. Unless it was stopped, before a POST or after one, it posted all of them and
   failed exactly the doomed ones.
   */
  method Dispatch(units: seq<Unit>, graph: map<SegmentId, seq<SegmentId>>, env: Outcomes, store: ChildStore)
    returns (log: seq<Event>, stopped: bool)
    requires ValidPlan(units, graph)
    requires store.dispatching && store.rows == map s | s in Segments(units) :: Unsubmitted
    modifies store`rows
    ensures PredecessorFirst(units, log)
    ensures Gated(log, graph, env.ray)
    ensures Barred(log, env)
    ensures Posts(log) <= Admitted(units, env.certified, |units|)
    ensures !stopped ==> Posts(log) == Admitted(units, env.certified, |units|)
    ensures !stopped ==> store.rows == map s | s in Segments(units) ::
                                         if Doomed(units, env.certified, s) then DependencyFailed else Submitted
    ensures FailedRightly(units, env.certified, store.rows)
    ensures stopped ==> exists u :: u in units && Interrupts(u, graph, env, log)
  {
    VisitingStarts(units, graph, env, store.rows);
    var reached, failed, outputs;
    log, reached, failed, outputs := RunUnits(units, graph, env, store);
    AdmittedGrows(units, env.certified, reached, |units|);
    stopped := reached < |units|;
    if stopped {
      AdmittedGrows(units, env.certified, reached + 1, |units|);
      assert units[reached] in units && Interrupts(units[reached], graph, env, log);
    } else {
      VisitingEnds(units, graph, env, failed, outputs, log, store.rows);
    }
    FaithfulIsOrdered(units, graph, env, log);
    FaithfulIsBarred(units, graph, env, log);
  }

  // --- What the outcome says ---------------------------------------------

  /** Every continuation stands after the segment it continues. */
  ghost predicate Topological(units: seq<Unit>) {
    forall p :: !DemandedEarly(units, p)
  }

  /** Some same-run ancestor gives no certified output, in time or late. */
  ghost predicate FailedAncestor(units: seq<Unit>, certified: set<SegmentId>, s: SegmentId) {
    exists p :: Below(Predecessors(units), s, p) && p !in certified
  }

  /**
   In topological order a segment is failed for its dependency exactly when some
   same-run ancestor gives no certified output.
   */
  lemma TopologicalOutcome(units: seq<Unit>, certified: set<SegmentId>, s: SegmentId)
    requires Topological(units)
    ensures Doomed(units, certified, s) <==> FailedAncestor(units, certified, s)
  {
    if p :| Below(Predecessors(units), s, p) && p !in certified {
      assert Unusable(units, certified, p);
    }
  }

  lemma {:induction false} AncestorsAreUnits(units: seq<Unit>, s: SegmentId, n: nat)
    requires WellFormed(units) && s in Segments(units)
    ensures Ancestor(Predecessors(units), s, n).Some? ==> Ancestor(Predecessors(units), s, n).value in Segments(units)
  {
    if n > 0 {
      AncestorsAreUnits(units, s, n - 1);
      var a := Ancestor(Predecessors(units), s, n - 1);
      if a.Some? && a.value in Predecessors(units) {
        PredecessorIsUnit(units, a.value);
        var j :| 0 <= j < |units| && units[j].segment == Predecessors(units)[a.value];
        assert units[j] in units;
      }
    }
  }

  /** A continuation demanded before its predecessor is failed though every segment would succeed. */
  lemma EarlyDemandDooms(units: seq<Unit>, p: SegmentId) returns (s: SegmentId)
    requires WellFormed(units) && DemandedEarly(units, p)
    ensures Doomed(units, Segments(units), s) && !FailedAncestor(units, Segments(units), s)
  {
    var i, j :| 0 <= i < j < |units| && units[j].segment == p && Continues(units[i], p);
    s := units[i].segment;
    assert units[i] in units;
    PredecessorAt(units, i);
    BelowStep(Predecessors(units), s, p);
    assert Unusable(units, Segments(units), p);
    forall q | Below(Predecessors(units), s, q) ensures q in Segments(units) {
      var n: nat :| n > 0 && Ancestor(Predecessors(units), s, n) == Some(q);
      AncestorsAreUnits(units, s, n);
    }
  }

  /**
   The exact condition: "dependency-failed exactly when some same-run ancestor gave no
   certified output" is true of a plan, whatever succeeds, if and only if no unit stands
   before the segment it continues.
   */
  lemma OrderDecidesTheReading(units: seq<Unit>)
    requires WellFormed(units)
    ensures Topological(units) <==>
              forall certified: set<SegmentId>, s: SegmentId ::
                Doomed(units, certified, s) <==> FailedAncestor(units, certified, s)
  {
    if Topological(units) {
      forall certified: set<SegmentId>, s: SegmentId
        ensures Doomed(units, certified, s) <==> FailedAncestor(units, certified, s)
      {
        TopologicalOutcome(units, certified, s);
      }
    } else {
      var p :| DemandedEarly(units, p);
      var s := EarlyDemandDooms(units, p);
    }
  }

  /** No segment is posted twice: the admitted segments are distinct, and are those not doomed. */
  lemma {:induction false} AdmittedOnce(units: seq<Unit>, certified: set<SegmentId>, k: nat)
    requires DistinctSegments(units) && k <= |units|
    ensures var a := Admitted(units, certified, k);
            && (forall i, j | 0 <= i < j < |a| :: a[i] != a[j])
            && (forall s :: s in a <==> Seen(units, k, s) && !Doomed(units, certified, s))
  {
    if k > 0 {
      AdmittedOnce(units, certified, k - 1);
      SeenBefore(units, k - 1, k - 1);
    }
  }

  /**
   The smallest plan in which the order alone dooms a segment. The graph check accepts
   it; compiled plans never have this order.
   */
  lemma EarlyContinuationIsDoomed(a: SegmentId, b: SegmentId)
    requires a != b
    ensures var units := [Unit(b, true, Some(Dependency(a, SameRun, false, None))), Unit(a, true, None)];
            WellFormed(units) && !Cyclic(Predecessors(units)) && Doomed(units, {a, b}, b)
  {
    var first := Unit(b, true, Some(Dependency(a, SameRun, false, None)));
    var units := [first, Unit(a, true, None)];
    assert units[0].segment == b && units[1].segment == a && units[1] in units && first in units;
    assert a in Segments(units);
    assert units[..1] == [first] && [first][..0] == [];
    var pred := Predecessors(units);
    assert Predecessors([first]) == map[b := a];
    assert pred == map[b := a];
    forall s | s in pred ensures WalkEnds(pred, s) {
      assert Ancestor(pred, b, 0) == Some(b);
      assert Ancestor(pred, b, 1) == Some(a);
      assert Ancestor(pred, b, 2).None?;
    }
    EndingWalksAreAcyclic(pred);
    BelowStep(pred, b, a);
    assert DemandedEarly(units, a) by {
      assert units[1].segment == a && Continues(units[0], a);
    }
  }
}
