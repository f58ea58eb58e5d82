/**
 Validation and indexing of the continuity dependencies of a compiled plan: the
 same-run predecessor relation, its inverse, and the cycle check.
 */
module ContinuityGraph {
  import opened Wrappers

  type SegmentId = nat

  datatype Source = SameRun | HistoricalTake | UnknownSource

  datatype Dependency = Dependency(
    predecessor: SegmentId, source: Source, resolved: bool, take: Option<nat>)

  datatype Unit = Unit(segment: SegmentId, savesVideo: bool, dependency: Option<Dependency>)

  datatype GraphError =
    | MultipleUnits | NoSaveVideo | InvalidHistoricalTake | UnknownDependencySource
    | UnselectedPredecessor | InvalidSameRun | SelfDependency | DependencyCycle

  // --- What a plan means -------------------------------------------------

  function Segments(units: seq<Unit>): set<SegmentId> {
    set u | u in units :: u.segment
  }

  predicate DistinctSegments(units: seq<Unit>) {
    forall i, j | 0 <= i < j < |units| :: units[i].segment != units[j].segment
  }

  predicate IsSameRun(u: Unit) {
    u.dependency.Some? && u.dependency.value.source.SameRun?
  }

  /** Everything about one dependency except whether it closes a cycle. */
  predicate ValidDependency(segments: set<SegmentId>, d: Dependency) {
    match d.source
    case HistoricalTake => d.resolved && d.take.Some? && d.predecessor !in segments
    case SameRun => d.predecessor in segments && !d.resolved && d.take.None?
    case UnknownSource => false
  }

  predicate WellFormed(units: seq<Unit>) {
    && DistinctSegments(units)
    && forall u | u in units ::
         u.savesVideo && (u.dependency.Some? ==> ValidDependency(Segments(units), u.dependency.value))
  }

  /** The same-run predecessor of every unit that has one. */
  function Predecessors(units: seq<Unit>): map<SegmentId, SegmentId> {
    if units == [] then map[] else
      var last := units[|units| - 1];
      var before := Predecessors(units[..|units| - 1]);
      if IsSameRun(last) then before[last.segment := last.dependency.value.predecessor] else before
  }

  /** The units that continue a segment, in plan order. */
  function Successors(units: seq<Unit>, predecessor: SegmentId): seq<SegmentId> {
    if units == [] then [] else
      var last := units[|units| - 1];
      var before := Successors(units[..|units| - 1], predecessor);
      if IsSameRun(last) && last.dependency.value.predecessor == predecessor
      then before + [last.segment] else before
  }

  /** The n-th ancestor of a segment. */
  function Ancestor(pred: map<SegmentId, SegmentId>, s: SegmentId, n: nat): Option<SegmentId> {
    if n == 0 then Some(s) else
      match Ancestor(pred, s, n - 1)
      case Some(x) => if x in pred then Some(pred[x]) else None
      case None => None
  }

  ghost predicate Cyclic(pred: map<SegmentId, SegmentId>) {
    exists s: SegmentId, n: nat :: n > 0 && Ancestor(pred, s, n) == Some(s)
  }

  /** `graph` is the inverse of the predecessor relation, successors in plan order. */
  ghost predicate IsInverse(units: seq<Unit>, graph: map<SegmentId, seq<SegmentId>>) {
    && (forall p :: p in graph <==> Successors(units, p) != [])
    && (forall p | p in graph :: graph[p] == Successors(units, p))
  }

  // --- Walking ancestors -------------------------------------------------

  lemma {:induction false} AncestorOfAncestor(pred: map<SegmentId, SegmentId>, s: SegmentId, a: nat, b: nat)
    requires Ancestor(pred, s, a).Some?
    ensures Ancestor(pred, s, a + b) == Ancestor(pred, Ancestor(pred, s, a).value, b)
  {
    if b > 0 {
      AncestorOfAncestor(pred, s, a, b - 1);
      assert a + b - 1 == a + (b - 1);
    }
  }

  lemma {:induction false} NoAncestorBeyond(pred: map<SegmentId, SegmentId>, s: SegmentId, a: nat, b: nat)
    requires Ancestor(pred, s, a).None? && a <= b
    ensures Ancestor(pred, s, b).None?
    decreases b
  {
    if a < b {
      NoAncestorBeyond(pred, s, a, b - 1);
    }
  }

  lemma {:induction false} AroundTheCycle(pred: map<SegmentId, SegmentId>, s: SegmentId, n: nat, rounds: nat)
    requires n > 0 && Ancestor(pred, s, n) == Some(s)
    ensures Ancestor(pred, s, rounds * n) == Some(s) && rounds <= rounds * n
  {
    if rounds > 0 {
      AroundTheCycle(pred, s, n, rounds - 1);
      AncestorOfAncestor(pred, s, (rounds - 1) * n, n);
      assert rounds * n == (rounds - 1) * n + n;
    }
  }

  ghost predicate WalkEnds(pred: map<SegmentId, SegmentId>, s: SegmentId) {
    exists n: nat :: Ancestor(pred, s, n).None?
  }

  lemma EndingWalksAreAcyclic(pred: map<SegmentId, SegmentId>)
    requires forall s | s in pred :: WalkEnds(pred, s)
    ensures !Cyclic(pred)
  {
    if Cyclic(pred) {
      var s: SegmentId, n: nat :| n > 0 && Ancestor(pred, s, n) == Some(s);
      if s in pred {
        var end: nat :| Ancestor(pred, s, end).None?;
        AroundTheCycle(pred, s, n, end);
        NoAncestorBeyond(pred, s, end, end * n);
      } else {
        assert Ancestor(pred, s, 1).None?;
        NoAncestorBeyond(pred, s, 1, n);
      }
    }
  }

  /** Follow predecessors from one segment; a segment met twice is on a cycle. */
  method FindsCycleFrom(pred: map<SegmentId, SegmentId>, segment: SegmentId) returns (cycle: bool)
    ensures cycle ==> Cyclic(pred)
    ensures !cycle ==> WalkEnds(pred, segment)
  {
    var seen: set<SegmentId> := {};
    var cursor := segment;
    ghost var steps: nat := 0;
    while cursor in pred
      invariant Ancestor(pred, segment, steps) == Some(cursor)
      invariant forall x | x in seen :: exists i :: 0 <= i < steps && Ancestor(pred, segment, i) == Some(x)
      decreases pred.Keys - seen
    {
      if cursor in seen {
        ghost var i :| 0 <= i < steps && Ancestor(pred, segment, i) == Some(cursor);
        AncestorOfAncestor(pred, segment, i, steps - i);
        assert Ancestor(pred, cursor, steps - i) == Some(cursor);
        return true;
      }
      seen := seen + {cursor};
      cursor := pred[cursor];
      steps := steps + 1;
    }
    assert Ancestor(pred, segment, steps + 1).None?;
    return false;
  }

  // --- The inverse -------------------------------------------------------

  lemma {:induction false} PredecessorsMeaning(units: seq<Unit>)
    requires DistinctSegments(units)
    ensures forall u | u in units && IsSameRun(u) ::
              u.segment in Predecessors(units) && Predecessors(units)[u.segment] == u.dependency.value.predecessor
    ensures forall s | s in Predecessors(units) ::
              exists u :: u in units && u.segment == s && IsSameRun(u)
  {
    if units != [] {
      var before := units[..|units| - 1];
      PredecessorsMeaning(before);
      assert units == before + [units[|units| - 1]];
    }
  }

  /** A segment is listed under p exactly when p is its same-run predecessor. */
  lemma {:induction false} SuccessorsInvertPredecessors(units: seq<Unit>, p: SegmentId, s: SegmentId)
    requires DistinctSegments(units)
    ensures s in Successors(units, p) <==> s in Predecessors(units) && Predecessors(units)[s] == p
  {
    if units != [] {
      var before := units[..|units| - 1];
      var last := units[|units| - 1];
      SuccessorsInvertPredecessors(before, p, s);
      PredecessorsMeaning(before);
      assert units == before + [last];
      assert forall u | u in before :: u.segment != last.segment;
    }
  }

  lemma {:induction false} SuccessorsDistinct(units: seq<Unit>, p: SegmentId)
    requires DistinctSegments(units)
    ensures forall i, j | 0 <= i < j < |Successors(units, p)| :: Successors(units, p)[i] != Successors(units, p)[j]
    ensures forall s | s in Successors(units, p) :: s in Segments(units)
  {
    if units != [] {
      var before := units[..|units| - 1];
      SuccessorsDistinct(before, p);
      var last := units[|units| - 1];
      assert units == before + [last];
      assert forall u | u in before :: u.segment != last.segment;
      assert last.segment !in Successors(before, p);
    }
  }

  /** A direct self-dependency is the shortest cycle. */
  lemma SelfIsCyclic(units: seq<Unit>, u: Unit)
    requires DistinctSegments(units) && u in units && IsSameRun(u) && u.dependency.value.predecessor == u.segment
    ensures Cyclic(Predecessors(units))
  {
    PredecessorsMeaning(units);
    assert Ancestor(Predecessors(units), u.segment, 0) == Some(u.segment);
    assert Ancestor(Predecessors(units), u.segment, 1) == Some(u.segment);
  }

  // --- The checker -------------------------------------------------------

  method IndexUnits(units: seq<Unit>) returns (r: Result<set<SegmentId>, GraphError>)
    ensures r.Ok? <==> DistinctSegments(units) && forall u | u in units :: u.savesVideo
    ensures r.Ok? ==> r.value == Segments(units)
    ensures r.Err? ==> r.error.MultipleUnits? || r.error.NoSaveVideo?
  {
    var segments: set<SegmentId> := {};
    for i := 0 to |units|
      invariant segments == Segments(units[..i])
      invariant DistinctSegments(units[..i]) && forall u | u in units[..i] :: u.savesVideo
    {
      assert units[..i + 1] == units[..i] + [units[i]];
      if units[i].segment in segments {
        ghost var j :| 0 <= j < i && units[j].segment == units[i].segment;
        return Err(MultipleUnits);
      }
      if !units[i].savesVideo {
        return Err(NoSaveVideo);
      }
      segments := segments + {units[i].segment};
    }
    assert units[..|units|] == units;
    return Ok(segments);
  }

  function DependencyError(segments: set<SegmentId>, u: Unit): (e: Option<GraphError>)
    ensures e.None? <==> u.dependency.None? ||
                         (ValidDependency(segments, u.dependency.value)
                          && !(IsSameRun(u) && u.dependency.value.predecessor == u.segment))
    ensures e == Some(SelfDependency) ==> IsSameRun(u) && u.dependency.value.predecessor == u.segment
    ensures e.Some? && e.value != SelfDependency ==>
              !ValidDependency(segments, u.dependency.value) && e.value != DependencyCycle
  {
    if u.dependency.None? then None else
      var d := u.dependency.value;
      if d.source.HistoricalTake? then
        if !d.resolved || d.take.None? || d.predecessor in segments then Some(InvalidHistoricalTake) else None
      else if !d.source.SameRun? then Some(UnknownDependencySource)
      else if d.predecessor !in segments then Some(UnselectedPredecessor)
      else if d.resolved || d.take.Some? then Some(InvalidSameRun)
      else if d.predecessor == u.segment then Some(SelfDependency)
      else None
  }

  lemma PrefixStep(units: seq<Unit>, i: nat, graph: map<SegmentId, seq<SegmentId>>)
    requires i < |units| && IsInverse(units[..i], graph)
    ensures units[..i + 1] == units[..i] + [units[i]]
    ensures !IsSameRun(units[i]) ==>
              IsInverse(units[..i + 1], graph) && Predecessors(units[..i + 1]) == Predecessors(units[..i])
    ensures IsSameRun(units[i]) ==>
              var p := units[i].dependency.value.predecessor;
              var successors := if p in graph then graph[p] else [];
              && IsInverse(units[..i + 1], graph[p := successors + [units[i].segment]])
              && Predecessors(units[..i + 1]) == Predecessors(units[..i])[units[i].segment := p]
  {
    assert units[..i + 1][..i] == units[..i];
    assert units[..i + 1][i] == units[i];
  }

  predicate DependenciesValid(segments: set<SegmentId>, units: seq<Unit>) {
    forall u | u in units :: DependencyError(segments, u).None?
  }

  /** Read the dependencies in plan order into the predecessor map and its inverse. */
  method IndexDependencies(segments: set<SegmentId>, units: seq<Unit>)
    returns (error: Option<GraphError>, pred: map<SegmentId, SegmentId>, graph: map<SegmentId, seq<SegmentId>>)
    ensures error.None? ==> DependenciesValid(segments, units)
    ensures error.None? ==> pred == Predecessors(units) && IsInverse(units, graph)
    ensures error.Some? ==> exists u :: u in units && DependencyError(segments, u) == error
  {
    pred, graph := map[], map[];
    for i := 0 to |units|
      invariant IsInverse(units[..i], graph) && pred == Predecessors(units[..i])
      invariant DependenciesValid(segments, units[..i])
    {
      error := DependencyError(segments, units[i]);
      if error.Some? {
        return;
      }
      PrefixStep(units, i, graph);
      if IsSameRun(units[i]) {
        var p := units[i].dependency.value.predecessor;
        pred := pred[units[i].segment := p];
        graph := graph[p := (if p in graph then graph[p] else []) + [units[i].segment]];
      }
    }
    assert units[..|units|] == units;
    error := None;
  }

  method FindsCycle(units: seq<Unit>, pred: map<SegmentId, SegmentId>) returns (cycle: bool)
    requires forall s | s in pred :: exists u :: u in units && u.segment == s
    ensures cycle <==> Cyclic(pred)
  {
    for i := 0 to |units|
      invariant forall j | 0 <= j < i && units[j].segment in pred :: WalkEnds(pred, units[j].segment)
    {
      if units[i].segment in pred {
        cycle := FindsCycleFrom(pred, units[i].segment);
        if cycle { return; }
      }
    }
    EndingWalksAreAcyclic(pred);
    cycle := false;
  }

  lemma InvalidDependencyRejects(units: seq<Unit>, u: Unit)
    requires u in units && DependencyError(Segments(units), u).Some?
    ensures DependencyError(Segments(units), u) != Some(SelfDependency) ==> !WellFormed(units)
    ensures DependencyError(Segments(units), u) == Some(SelfDependency) && DistinctSegments(units) ==>
              Cyclic(Predecessors(units))
  {
    if DependencyError(Segments(units), u) == Some(SelfDependency) && DistinctSegments(units) {
      SelfIsCyclic(units, u);
    }
  }

  /**
   Sound and complete: among otherwise valid plans exactly the cyclic ones are
   rejected, and an accepted plan yields the exact, order-preserving inverse of its
   same-run predecessor map.
   */
  method ExecutionContinuityGraph(units: seq<Unit>)
    returns (r: Result<map<SegmentId, seq<SegmentId>>, GraphError>)
    ensures r.Ok? <==> WellFormed(units) && !Cyclic(Predecessors(units))
    ensures WellFormed(units) && r.Err? ==> r.error.SelfDependency? || r.error.DependencyCycle?
    ensures r.Ok? ==> IsInverse(units, r.value)
  {
    var indexed := IndexUnits(units);
    if indexed.Err? {
      return Err(indexed.error);
    }
    var error, pred, graph := IndexDependencies(indexed.value, units);
    if error.Some? {
      ghost var u :| u in units && DependencyError(indexed.value, u) == error;
      InvalidDependencyRejects(units, u);
      return Err(error.value);
    }
    PredecessorsMeaning(units);
    var cycle := FindsCycle(units, pred);
    return if cycle then Err(DependencyCycle) else Ok(graph);
  }
}
