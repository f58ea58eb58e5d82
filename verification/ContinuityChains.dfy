/**
 Which segment continues which: the authored predecessor relation of a draft, and the
 chains it forms over the enabled timeline.
 */
module ContinuityChains {
  import opened Wrappers
  import opened Drafts
  import opened ContinuityGraph

  /** An explicit first image starts a new authored chain. */
  predicate AnchorReset(s: Segment) {
    s.media.Anchors? && s.media.first.Some?
  }

  /** The segment at `i` continues the one enabled before it. */
  predicate Linked(enabled: seq<Segment>, i: nat)
    requires i < |enabled|
  {
    i > 0 && enabled[i].continuity.enabled && !AnchorReset(enabled[i])
  }

  /** `pred` maps exactly the linked segments, each to its direct enabled neighbour. */
  ghost predicate IsPredecessorMap(enabled: seq<Segment>, pred: map<SegmentId, Segment>) {
    && (forall i | 0 <= i < |enabled| :: enabled[i].id in pred <==> Linked(enabled, i))
    && (forall i, j | 0 <= i && j == i + 1 && j < |enabled| && Linked(enabled, j) :: pred[enabled[j].id] == enabled[i])
    && (forall s | s in pred :: exists i :: 0 <= i < |enabled| && enabled[i].id == s)
  }

  lemma ExtendPredecessorMap(enabled: seq<Segment>, pred: map<SegmentId, Segment>, s: Segment)
    requires UniqueIds(enabled + [s]) && IsPredecessorMap(enabled, pred)
    ensures var now := enabled + [s];
            IsPredecessorMap(now, if Linked(now, |enabled|) then pred[s.id := enabled[|enabled| - 1]] else pred)
  {
    var now := enabled + [s];
    assert now[|enabled|] == s;
    assert forall i | 0 <= i < |enabled| :: now[i] == enabled[i] && now[i].id != s.id;
    assert s.id !in pred;
    var after := if Linked(now, |enabled|) then pred[s.id := enabled[|enabled| - 1]] else pred;
    forall x | x in after ensures exists i :: 0 <= i < |now| && now[i].id == x {
      if x == s.id {
        assert now[|enabled|].id == x;
      } else {
        var i :| 0 <= i < |enabled| && enabled[i].id == x;
        assert now[i].id == x;
      }
    }
  }

  lemma EnabledNext(segments: seq<Segment>, i: nat)
    requires UniqueIds(segments) && i < |segments|
    ensures var before, now := Enabled(segments[..i]), Enabled(segments[..i + 1]);
            now == (if segments[i].enabled then before + [segments[i]] else before) && UniqueIds(now)
  {
    assert segments[..i + 1][..i] == segments[..i];
    EnabledKeepsUnique(segments[..i + 1]);
  }

  lemma LinkedNext(before: seq<Segment>, s: Segment)
    ensures Linked(before + [s], |before|) <==> before != [] && s.continuity.enabled && !AnchorReset(s)
    ensures before != [] ==> (before + [s])[|before| - 1] == before[|before| - 1]
  {
  }

  method UnifiedContinuityPredecessors(segments: seq<Segment>) returns (predecessors: map<SegmentId, Segment>)
    requires UniqueIds(segments)
    ensures IsPredecessorMap(Enabled(segments), predecessors)
  {
    predecessors := map[];
    var previous: Option<Segment> := None;
    for i := 0 to |segments|
      invariant IsPredecessorMap(Enabled(segments[..i]), predecessors)
      invariant var e := Enabled(segments[..i]);
                previous == if e == [] then None else Some(e[|e| - 1])
    {
      var segment := segments[i];
      EnabledNext(segments, i);
      if segment.enabled {
        ghost var before := Enabled(segments[..i]);
        ExtendPredecessorMap(before, predecessors, segment);
        LinkedNext(before, segment);
        var anchorReset := segment.media.Anchors? && segment.media.first.Some?;
        if segment.continuity.enabled && previous.Some? && !anchorReset {
          predecessors := predecessors[segment.id := previous.value];
        }
        previous := Some(segment);
      }
    }
    assert segments[..|segments|] == segments;
  }

  // --- Chains ------------------------------------------------------------

  /** How many segments before `i` its chain reaches back. */
  function ChainLength(enabled: seq<Segment>, i: nat): (n: nat)
    requires i < |enabled|
    ensures n <= i
  {
    if Linked(enabled, i) then ChainLength(enabled, i - 1) + 1 else 0
  }

  lemma {:induction false} ChainIsLinked(enabled: seq<Segment>, i: nat, k: nat)
    requires i < |enabled| && k <= i
    ensures k <= ChainLength(enabled, i) <==> forall j | i - k < j <= i :: Linked(enabled, j)
    ensures k <= ChainLength(enabled, i) ==>
              ChainLength(enabled, i - k) == ChainLength(enabled, i) - k
    decreases k
  {
    if k > 0 && Linked(enabled, i) {
      ChainIsLinked(enabled, i - 1, k - 1);
    }
  }

  function PredecessorIds(pred: map<SegmentId, Segment>): map<SegmentId, SegmentId> {
    map s | s in pred :: pred[s].id
  }

  lemma NeighbourOf(enabled: seq<Segment>, pred: map<SegmentId, Segment>, i: nat)
    requires IsPredecessorMap(enabled, pred) && i < |enabled|
    ensures enabled[i].id in pred <==> ChainLength(enabled, i) > 0
    ensures enabled[i].id in pred ==> pred[enabled[i].id] == enabled[i - 1]
  {
  }

  lemma StepBack(enabled: seq<Segment>, pred: map<SegmentId, Segment>, i: nat, k: nat)
    requires IsPredecessorMap(enabled, pred) && i < |enabled| && k <= ChainLength(enabled, i)
    ensures enabled[i - k].id in pred <==> k < ChainLength(enabled, i)
    ensures k < ChainLength(enabled, i) ==> pred[enabled[i - k].id] == enabled[i - k - 1]
  {
    ChainIsLinked(enabled, i, k);
    NeighbourOf(enabled, pred, i - k);
  }

  /** Walking predecessors goes back one enabled neighbour at a time, to the start of the chain. */
  lemma {:induction false} AncestorIsEarlierNeighbour(
    enabled: seq<Segment>, pred: map<SegmentId, Segment>, i: nat, n: nat)
    requires IsPredecessorMap(enabled, pred) && i < |enabled|
    ensures Ancestor(PredecessorIds(pred), enabled[i].id, n) ==
            if n <= ChainLength(enabled, i) then Some(enabled[i - n].id) else None
  {
    if n > 0 {
      AncestorIsEarlierNeighbour(enabled, pred, i, n - 1);
      if n - 1 <= ChainLength(enabled, i) {
        StepBack(enabled, pred, i, n - 1);
      }
    }
  }

  /** Authored predecessors form disjoint simple paths: never a cycle, never two continuations of one segment. */
  lemma ChainsAreDisjointPaths(segments: seq<Segment>, pred: map<SegmentId, Segment>)
    requires UniqueIds(segments) && IsPredecessorMap(Enabled(segments), pred)
    ensures !Cyclic(PredecessorIds(pred))
    ensures forall a, b | a in pred && b in pred && pred[a].id == pred[b].id :: a == b
  {
    var enabled := Enabled(segments);
    EnabledKeepsUnique(segments);
    forall s | s in PredecessorIds(pred) ensures WalkEnds(PredecessorIds(pred), s) {
      var i :| 0 <= i < |enabled| && enabled[i].id == s;
      AncestorIsEarlierNeighbour(enabled, pred, i, i + 1);
    }
    EndingWalksAreAcyclic(PredecessorIds(pred));
    forall a, b | a in pred && b in pred && pred[a].id == pred[b].id ensures a == b {
      ContinuedOnce(enabled, pred, a, b);
    }
  }

  lemma ContinuedOnce(enabled: seq<Segment>, pred: map<SegmentId, Segment>, a: SegmentId, b: SegmentId)
    requires UniqueIds(enabled) && IsPredecessorMap(enabled, pred)
    requires a in pred && b in pred && pred[a].id == pred[b].id
    ensures a == b
  {
    var i :| 0 <= i < |enabled| && enabled[i].id == a;
    var j :| 0 <= j < |enabled| && enabled[j].id == b;
    assert pred[a] == enabled[i - 1] && pred[b] == enabled[j - 1];
  }
}
