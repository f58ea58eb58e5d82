/**
 Failing every transitive dependent of one segment with a worklist, over any
 dependents graph, cyclic or not.
 */
module DescendantFailure {
  import opened Wrappers
  import opened ContinuityGraph

  datatype ChildState = Unsubmitted | Submitted | DependencyFailed | Ended

  function Dependents(graph: map<SegmentId, seq<SegmentId>>, s: SegmentId): seq<SegmentId> {
    if s in graph then graph[s] else []
  }

  ghost predicate IsPath(graph: map<SegmentId, seq<SegmentId>>, path: seq<SegmentId>) {
    |path| >= 2 && forall i, j | 0 <= i && j == i + 1 && j < |path| :: path[j] in Dependents(graph, path[i])
  }

  /** `s` is a direct or transitive dependent of `from`. */
  ghost predicate Downstream(graph: map<SegmentId, seq<SegmentId>>, from: SegmentId, s: SegmentId) {
    exists path: seq<SegmentId> :: IsPath(graph, path) && path[0] == from && path[|path| - 1] == s
  }

  lemma DirectIsDownstream(graph: map<SegmentId, seq<SegmentId>>, from: SegmentId, s: SegmentId)
    requires s in Dependents(graph, from)
    ensures Downstream(graph, from, s)
  {
    assert IsPath(graph, [from, s]);
  }

  lemma DownstreamStep(graph: map<SegmentId, seq<SegmentId>>, from: SegmentId, x: SegmentId, s: SegmentId)
    requires Downstream(graph, from, x) && s in Dependents(graph, x)
    ensures Downstream(graph, from, s)
  {
    var path: seq<SegmentId> :| IsPath(graph, path) && path[0] == from && path[|path| - 1] == x;
    assert IsPath(graph, path + [s]);
    assert (path + [s])[|path|] == s;
  }

  /** A set closed under dependents that holds the direct ones holds every downstream segment. */
  lemma {:induction false} ClosedHoldsPath(
    graph: map<SegmentId, seq<SegmentId>>, closed: set<SegmentId>, path: seq<SegmentId>)
    requires IsPath(graph, path)
    requires forall y | y in Dependents(graph, path[0]) :: y in closed
    requires forall x, y | x in closed && y in Dependents(graph, x) :: y in closed
    ensures path[|path| - 1] in closed
    decreases |path|
  {
    var last := |path| - 1;
    if last > 1 {
      assert IsPath(graph, path[..last]);
      ClosedHoldsPath(graph, closed, path[..last]);
      assert path[last] in Dependents(graph, path[last - 1]);
    }
  }

  /** The children of one job, and whether its parent still dispatches uncancelled. */
  class ChildStore {
    var rows: map<SegmentId, ChildState>
    var dispatching: bool

    constructor (segments: set<SegmentId>)
      ensures rows == (map s | s in segments :: Unsubmitted) && dispatching
    {
      rows := map s | s in segments :: Unsubmitted;
      dispatching := true;
    }

    /** The conditional update of one provably unsubmitted child. */
    method FailDependency(s: SegmentId)
      modifies this`rows
      ensures rows == if s in old(rows) && old(rows)[s].Unsubmitted? && dispatching
                      then old(rows)[s := DependencyFailed] else old(rows)
    {
      if s in rows && rows[s].Unsubmitted? && dispatching {
        rows := rows[s := DependencyFailed];
      }
    }

    method Submit(s: SegmentId)
      modifies this`rows
      ensures rows == old(rows)[s := Submitted]
    {
      rows := rows[s := Submitted];
    }
  }

  /** The rows after failing the unsubmitted members of `failed`. */
  function FailRows(rows: map<SegmentId, ChildState>, dispatching: bool, failed: set<SegmentId>): map<SegmentId, ChildState> {
    map s | s in rows :: if s in failed && rows[s].Unsubmitted? && dispatching then DependencyFailed else rows[s]
  }

  lemma FailOne(rows: map<SegmentId, ChildState>, dispatching: bool, failed: set<SegmentId>, s: SegmentId)
    requires s !in failed
    ensures var now := FailRows(rows, dispatching, failed);
            FailRows(rows, dispatching, failed + {s}) ==
            if s in now && now[s].Unsubmitted? && dispatching then now[s := DependencyFailed] else now
  {
  }

  function Targets(graph: map<SegmentId, seq<SegmentId>>): set<SegmentId> {
    set x, y | x in graph && y in graph[x] :: y
  }

  /** The worklist invariant: everything found is downstream, and nothing reached is forgotten. */
  ghost predicate Working(
    graph: map<SegmentId, seq<SegmentId>>, from: SegmentId, failed: set<SegmentId>, pending: seq<SegmentId>)
  {
    && (forall y | y in pending :: y in Targets(graph) && Downstream(graph, from, y))
    && (forall x | x in failed :: x in Targets(graph) && Downstream(graph, from, x))
    && (forall y | y in Dependents(graph, from) :: y in failed || y in pending)
    && (forall x, y | x in failed && y in Dependents(graph, x) :: y in failed || y in pending)
  }

  lemma WorkingStarts(graph: map<SegmentId, seq<SegmentId>>, from: SegmentId)
    ensures Working(graph, from, {}, Dependents(graph, from))
  {
    forall y | y in Dependents(graph, from) ensures y in Targets(graph) && Downstream(graph, from, y) {
      DirectIsDownstream(graph, from, y);
    }
  }

  lemma WorkingSkips(graph: map<SegmentId, seq<SegmentId>>, from: SegmentId, failed: set<SegmentId>, pending: seq<SegmentId>)
    requires Working(graph, from, failed, pending) && pending != [] && pending[0] in failed
    ensures Working(graph, from, failed, pending[1..])
  {
    assert forall y | y in pending :: y == pending[0] || y in pending[1..];
  }

  lemma WorkingExpands(graph: map<SegmentId, seq<SegmentId>>, from: SegmentId, failed: set<SegmentId>, pending: seq<SegmentId>)
    requires Working(graph, from, failed, pending) && pending != []
    ensures Working(graph, from, failed + {pending[0]}, pending[1..] + Dependents(graph, pending[0]))
  {
    assert forall y | y in pending :: y == pending[0] || y in pending[1..];
    forall y | y in Dependents(graph, pending[0]) ensures y in Targets(graph) && Downstream(graph, from, y) {
      DownstreamStep(graph, from, pending[0], y);
    }
  }

  lemma WorkingEnds(graph: map<SegmentId, seq<SegmentId>>, from: SegmentId, failed: set<SegmentId>)
    requires Working(graph, from, failed, [])
    ensures forall s :: s in failed <==> Downstream(graph, from, s)
  {
    forall s | Downstream(graph, from, s) ensures s in failed {
      var path: seq<SegmentId> :| IsPath(graph, path) && path[0] == from && path[|path| - 1] == s;
      ClosedHoldsPath(graph, failed, path);
    }
  }

  /**
   Terminates on every graph and returns exactly the segments downstream of the
   failed predecessor, having failed exactly the unsubmitted ones among them.
   */
  method FailContinuityDescendants(
    store: ChildStore, graph: map<SegmentId, seq<SegmentId>>, predecessor: SegmentId)
    returns (failed: set<SegmentId>)
    modifies store`rows
    ensures forall s :: s in failed <==> Downstream(graph, predecessor, s)
    ensures store.rows == FailRows(old(store.rows), store.dispatching, failed)
  {
    failed := {};
    var pending := Dependents(graph, predecessor);
    WorkingStarts(graph, predecessor);
    while pending != []
      invariant Working(graph, predecessor, failed, pending)
      invariant store.rows == FailRows(old(store.rows), store.dispatching, failed)
      decreases Targets(graph) - failed, |pending|
    {
      var segment := pending[0];
      if segment in failed {
        WorkingSkips(graph, predecessor, failed, pending);
        pending := pending[1..];
      } else {
        WorkingExpands(graph, predecessor, failed, pending);
        FailOne(old(store.rows), store.dispatching, failed, segment);
        assert segment in Targets(graph) - failed;
        pending := pending[1..] + Dependents(graph, segment);
        failed := failed + {segment};
        store.FailDependency(segment);
      }
    }
    WorkingEnds(graph, predecessor, failed);
  }
}
