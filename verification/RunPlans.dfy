/**
 The plan of one run: which selected segments continue a segment of the same run, which
 a historical take, and in which order the units are dispatched.
 */
module RunPlans {
  import opened Wrappers
  import opened Drafts
  import opened ContinuityChains
  import opened ContinuityGraph
  import opened Dispatch

  datatype Take = Take(id: nat, segment: SegmentId)

  /** Takes are looked up by segment, and by whether the continuation generates audio and so needs theirs. */
  datatype TakeKey = TakeKey(segment: SegmentId, withAudio: bool)

  datatype PlanError = NoHistoricalTake(segment: SegmentId)

  datatype Route = Route(index: nat, family: Family, unit: Unit)

  /** The segment is selected and continues one that is not. */
  predicate NeedsTake(enabled: seq<Segment>, selected: set<SegmentId>, i: nat)
    requires i < |enabled|
  {
    enabled[i].id in selected && Linked(enabled, i) && enabled[i - 1].id !in selected
  }

  /** The take that continuing at `i` looks up. */
  function KeyFor(enabled: seq<Segment>, i: nat): TakeKey
    requires 0 < i < |enabled|
  {
    TakeKey(enabled[i - 1].id, enabled[i].audioMode.GenerateAudio?)
  }

  ghost predicate MissesTake(enabled: seq<Segment>, selected: set<SegmentId>, observed: map<TakeKey, nat>, i: nat)
    requires i < |enabled|
  {
    NeedsTake(enabled, selected, i) && KeyFor(enabled, i) !in observed
  }

  /** Among the first `n` segments, exactly those that need a take have it, of their direct predecessor. */
  ghost predicate IsResolved(
    enabled: seq<Segment>, selected: set<SegmentId>, observed: map<TakeKey, nat>, takes: map<SegmentId, Take>, n: nat)
    requires n <= |enabled|
  {
    && (forall i: nat {:trigger NeedsTake(enabled, selected, i)} | i < n ::
          && (enabled[i].id in takes <==> NeedsTake(enabled, selected, i))
          && (NeedsTake(enabled, selected, i) ==>
                KeyFor(enabled, i) in observed && takes[enabled[i].id] == Take(observed[KeyFor(enabled, i)], enabled[i - 1].id)))
    && (forall s | s in takes :: exists j: nat :: j < n && enabled[j].id == s)
  }

  lemma ResolveStep(
    enabled: seq<Segment>, selected: set<SegmentId>, observed: map<TakeKey, nat>, takes: map<SegmentId, Take>, n: nat)
    requires UniqueIds(enabled) && n < |enabled| && IsResolved(enabled, selected, observed, takes, n)
    requires !MissesTake(enabled, selected, observed, n)
    ensures IsResolved(
              enabled, selected, observed,
              if NeedsTake(enabled, selected, n)
              then takes[enabled[n].id := Take(observed[KeyFor(enabled, n)], enabled[n - 1].id)] else takes,
              n + 1)
  {
    assert enabled[n].id !in takes;
  }

  method ResolveTake(
    enabled: seq<Segment>, selected: set<SegmentId>, predecessors: map<SegmentId, Segment>, observed: map<TakeKey, nat>,
    resolved: map<SegmentId, Take>, i: nat)
    returns (r: Result<map<SegmentId, Take>, PlanError>)
    requires UniqueIds(enabled) && IsPredecessorMap(enabled, predecessors) && i < |enabled|
    requires IsResolved(enabled, selected, observed, resolved, i)
    ensures r.Err? <==> MissesTake(enabled, selected, observed, i)
    ensures r.Ok? ==> IsResolved(enabled, selected, observed, r.value, i + 1)
  {
    var segment := enabled[i];
    if segment.id !in selected || segment.id !in predecessors || predecessors[segment.id].id in selected {
      ResolveStep(enabled, selected, observed, resolved, i);
      return Ok(resolved);
    }
    var predecessor := predecessors[segment.id];
    var key := TakeKey(predecessor.id, segment.audioMode.GenerateAudio?);
    if key !in observed {
      return Err(NoHistoricalTake(segment.id));
    }
    ResolveStep(enabled, selected, observed, resolved, i);
    return Ok(resolved[segment.id := Take(observed[key], predecessor.id)]);
  }

  ghost predicate SomeTakeMissing(enabled: seq<Segment>, selected: set<SegmentId>, observed: map<TakeKey, nat>, n: nat)
    requires n <= |enabled|
  {
    exists i: nat :: i < n && MissesTake(enabled, selected, observed, i)
  }

  /**
   Resolve every omitted direct predecessor; `observed` holds the latest usable take of
   each segment for either need of audio. Fails exactly when one that is needed has none.
   */
  method ResolveHistoricalTakes(
    enabled: seq<Segment>, selected: set<SegmentId>, predecessors: map<SegmentId, Segment>, observed: map<TakeKey, nat>)
    returns (r: Result<map<SegmentId, Take>, PlanError>)
    requires UniqueIds(enabled) && IsPredecessorMap(enabled, predecessors)
    ensures r.Err? <==> SomeTakeMissing(enabled, selected, observed, |enabled|)
    ensures r.Ok? ==> IsResolved(enabled, selected, observed, r.value, |enabled|)
  {
    r := Ok(map[]);
    for i := 0 to |enabled|
      invariant r.Ok? && IsResolved(enabled, selected, observed, r.value, i)
      invariant !SomeTakeMissing(enabled, selected, observed, i)
    {
      r := ResolveTake(enabled, selected, predecessors, observed, r.value, i);
      if r.Err? {
        return;
      }
    }
  }

  /** The unit of one selected segment is exactly one of unlinked, same-run or historical. */
  ghost predicate IsUnitOf(
    enabled: seq<Segment>, selected: set<SegmentId>, takes: map<SegmentId, Take>, i: nat, u: Unit)
    requires i < |enabled|
  {
    && u.segment == enabled[i].id && u.segment in selected && u.savesVideo
    && (u.dependency.Some? <==> Linked(enabled, i))
    && (u.dependency.Some? ==>
          var d := u.dependency.value;
          && d.predecessor == enabled[i - 1].id
          && (d.source.SameRun? <==> enabled[i - 1].id in selected)
          && (d.source.SameRun? ==> !d.resolved && d.take.None?)
          && (d.source.HistoricalTake? <==> enabled[i - 1].id !in selected)
          && (d.source.HistoricalTake? ==> d.resolved && u.segment in takes && d.take == Some(takes[u.segment].id)))
  }

  /** The routes cover the selected segments once each, in timeline order if any continues another. */
  ghost predicate IsPlan(
    enabled: seq<Segment>, selected: set<SegmentId>, takes: map<SegmentId, Take>, routes: seq<Route>)
  {
    && (forall r | r in routes ::
          r.index < |enabled| && r.family == FamilyOf(enabled[r.index]) && IsUnitOf(enabled, selected, takes, r.index, r.unit))
    && (forall i: nat | i < |enabled| && enabled[i].id in selected :: exists r :: r in routes && r.index == i)
    && (forall a, b | 0 <= a < b < |routes| :: routes[a].index != routes[b].index)
    && ((exists r :: r in routes && r.unit.dependency.Some?) ==> InTimelineOrder(routes))
  }

  predicate InTimelineOrder(routes: seq<Route>) {
    forall a, b | 0 <= a < b < |routes| :: routes[a].index < routes[b].index
  }

  function OfFamily(routes: seq<Route>, family: Family): (kept: seq<Route>)
    ensures forall r :: r in kept <==> r in routes && r.family == family
  {
    if routes == [] then [] else
      var last := routes[|routes| - 1];
      OfFamily(routes[..|routes| - 1], family) + (if last.family == family then [last] else [])
  }

  lemma {:induction false} OfFamilyIsOrdered(routes: seq<Route>, family: Family)
    requires InTimelineOrder(routes)
    ensures InTimelineOrder(OfFamily(routes, family))
  {
    if routes != [] {
      var before := routes[..|routes| - 1];
      OfFamilyIsOrdered(before, family);
      assert forall r | r in before :: r.index < routes[|routes| - 1].index;
    }
  }

  method RouteFor(
    enabled: seq<Segment>, selected: set<SegmentId>, predecessors: map<SegmentId, Segment>,
    takes: map<SegmentId, Take>, i: nat)
    returns (r: Result<Route, PlanError>)
    requires IsPredecessorMap(enabled, predecessors) && i < |enabled| && enabled[i].id in selected
    ensures r.Err? <==> NeedsTake(enabled, selected, i) &&
                        !(enabled[i].id in takes && takes[enabled[i].id].segment == enabled[i - 1].id)
    ensures r.Ok? ==> r.value.index == i && r.value.family == FamilyOf(enabled[i]) &&
                      IsUnitOf(enabled, selected, takes, i, r.value.unit)
  {
    var segment := enabled[i];
    var dependency: Option<Dependency> := None;
    if segment.id in predecessors {
      var predecessor := predecessors[segment.id].id;
      if predecessor in selected {
        dependency := Some(Dependency(predecessor, SameRun, false, None));
      } else if segment.id in takes && takes[segment.id].segment == predecessor {
        dependency := Some(Dependency(predecessor, HistoricalTake, true, Some(takes[segment.id].id)));
      } else {
        return Err(NoHistoricalTake(segment.id));
      }
    }
    return Ok(Route(i, FamilyOf(segment), Unit(segment.id, true, dependency)));
  }

  /** The routes of the selected ones among the first `n` segments, in timeline order. */
  ghost predicate RoutesOf(
    enabled: seq<Segment>, selected: set<SegmentId>, takes: map<SegmentId, Take>, routes: seq<Route>, n: nat)
    requires n <= |enabled|
  {
    && (forall r | r in routes ::
          r.index < n && r.family == FamilyOf(enabled[r.index]) && IsUnitOf(enabled, selected, takes, r.index, r.unit))
    && (forall i: nat | i < n && enabled[i].id in selected :: exists r :: r in routes && r.index == i)
    && InTimelineOrder(routes)
  }

  lemma RouteAppended(
    enabled: seq<Segment>, selected: set<SegmentId>, takes: map<SegmentId, Take>, routes: seq<Route>, route: Route, n: nat)
    requires n < |enabled| && RoutesOf(enabled, selected, takes, routes, n)
    requires route.index == n && route.family == FamilyOf(enabled[n]) && IsUnitOf(enabled, selected, takes, n, route.unit)
    ensures RoutesOf(enabled, selected, takes, routes + [route], n + 1)
  {
    var now := routes + [route];
    assert now[|routes|] == route;
    forall i: nat | i < n + 1 && enabled[i].id in selected ensures exists r :: r in now && r.index == i {
      if i < n {
        var r :| r in routes && r.index == i;
        assert r in now;
      } else {
        assert route in now;
      }
    }
    forall a, b | 0 <= a < b < |now| ensures now[a].index < now[b].index {
      assert now[a] in routes;
    }
  }

  predicate Anchored(enabled: seq<Segment>, r: Route) {
    r.index < |enabled| && enabled[r.index].media.Anchors?
  }

  /** The anchored segments come first, and within each family the timeline decides. */
  predicate Grouped(enabled: seq<Segment>, routes: seq<Route>) {
    forall i, j | 0 <= i < j < |routes| ::
      if Anchored(enabled, routes[i]) <==> Anchored(enabled, routes[j])
      then routes[i].index < routes[j].index else Anchored(enabled, routes[i])
  }

  /** Any continuity keeps the plan in timeline order; without it the families are kept together. */
  predicate Arranged(enabled: seq<Segment>, routes: seq<Route>) {
    if SomeContinues(routes) then InTimelineOrder(routes) else Grouped(enabled, routes)
  }

  predicate SomeContinues(routes: seq<Route>) {
    exists r :: r in routes && r.unit.dependency != None
  }

  lemma ContinuesAppend(routes: seq<Route>, route: Route)
    ensures SomeContinues(routes + [route]) <==> SomeContinues(routes) || route.unit.dependency.Some?
  {
    assert forall r :: r in routes + [route] <==> r in routes || r == route;
  }

  lemma RegroupedIsGrouped(enabled: seq<Segment>, selected: set<SegmentId>, takes: map<SegmentId, Take>, routes: seq<Route>)
    requires RoutesOf(enabled, selected, takes, routes, |enabled|)
    ensures Grouped(enabled, OfFamily(routes, FL2VA) + OfFamily(routes, Ref2VA))
  {
    OfFamilyIsOrdered(routes, FL2VA);
    OfFamilyIsOrdered(routes, Ref2VA);
    var a, b := OfFamily(routes, FL2VA), OfFamily(routes, Ref2VA);
    var now := a + b;
    forall i | 0 <= i < |now| ensures Anchored(enabled, now[i]) <==> i < |a| {
      assert if i < |a| then now[i] in a else now[i] in b;
    }
  }

  lemma RegroupedIsPlan(enabled: seq<Segment>, selected: set<SegmentId>, takes: map<SegmentId, Take>, routes: seq<Route>)
    requires RoutesOf(enabled, selected, takes, routes, |enabled|)
    requires forall r | r in routes :: r.unit.dependency.None?
    ensures IsPlan(enabled, selected, takes, OfFamily(routes, FL2VA) + OfFamily(routes, Ref2VA))
  {
    OfFamilyIsOrdered(routes, FL2VA);
    OfFamilyIsOrdered(routes, Ref2VA);
    var a, b := OfFamily(routes, FL2VA), OfFamily(routes, Ref2VA);
    var now := a + b;
    assert forall r :: r in now <==> r in routes;
    forall i, j | 0 <= i < j < |now| ensures now[i].index != now[j].index {
      if i < |a| && j >= |a| {
        assert now[i] in a && now[j] in b;
      }
    }
  }

  /** One route per selected segment, in timeline order. */
  method CollectRoutes(
    enabled: seq<Segment>, selected: set<SegmentId>, predecessors: map<SegmentId, Segment>,
    ghost observed: map<TakeKey, nat>, takes: map<SegmentId, Take>)
    returns (routes: seq<Route>, hasContinuity: bool)
    requires UniqueIds(enabled) && IsPredecessorMap(enabled, predecessors)
    requires IsResolved(enabled, selected, observed, takes, |enabled|)
    ensures RoutesOf(enabled, selected, takes, routes, |enabled|)
    ensures hasContinuity <==> SomeContinues(routes)
  {
    routes, hasContinuity := [], false;
    for i := 0 to |enabled|
      invariant RoutesOf(enabled, selected, takes, routes, i)
      invariant hasContinuity <==> SomeContinues(routes)
    {
      if enabled[i].id in selected {
        var route := RouteFor(enabled, selected, predecessors, takes, i);
        RouteAppended(enabled, selected, takes, routes, route.value, i);
        ContinuesAppend(routes, route.value);
        routes := routes + [route.value];
        hasContinuity := hasContinuity || route.value.unit.dependency.Some?;
      }
    }
  }

  /** Regrouping leaves nothing out and adds nothing. */
  lemma RegroupedIsArranged(enabled: seq<Segment>, selected: set<SegmentId>, takes: map<SegmentId, Take>, routes: seq<Route>)
    requires RoutesOf(enabled, selected, takes, routes, |enabled|) && !SomeContinues(routes)
    ensures IsPlan(enabled, selected, takes, OfFamily(routes, FL2VA) + OfFamily(routes, Ref2VA))
    ensures Arranged(enabled, OfFamily(routes, FL2VA) + OfFamily(routes, Ref2VA))
  {
    RegroupedIsPlan(enabled, selected, takes, routes);
    RegroupedIsGrouped(enabled, selected, takes, routes);
    assert forall r :: r in OfFamily(routes, FL2VA) + OfFamily(routes, Ref2VA) ==> r in routes;
  }

  lemma CollectedIsPlan(enabled: seq<Segment>, selected: set<SegmentId>, takes: map<SegmentId, Take>, routes: seq<Route>)
    requires RoutesOf(enabled, selected, takes, routes, |enabled|) && SomeContinues(routes)
    ensures IsPlan(enabled, selected, takes, routes) && Arranged(enabled, routes)
  {
  }

  /** With resolved takes the projection succeeds, and yields a plan. */
  method ProjectRoutes(
    enabled: seq<Segment>, selected: set<SegmentId>, predecessors: map<SegmentId, Segment>,
    ghost observed: map<TakeKey, nat>, takes: map<SegmentId, Take>)
    returns (routes: seq<Route>)
    requires UniqueIds(enabled) && IsPredecessorMap(enabled, predecessors)
    requires IsResolved(enabled, selected, observed, takes, |enabled|)
    ensures IsPlan(enabled, selected, takes, routes) && Arranged(enabled, routes)
  {
    var hasContinuity;
    routes, hasContinuity := CollectRoutes(enabled, selected, predecessors, observed, takes);
    if hasContinuity {
      CollectedIsPlan(enabled, selected, takes, routes);
    } else {
      RegroupedIsArranged(enabled, selected, takes, routes);
      routes := OfFamily(routes, FL2VA) + OfFamily(routes, Ref2VA);
    }
  }

  function Units(routes: seq<Route>): (units: seq<Unit>)
    ensures |units| == |routes| && forall k | 0 <= k < |routes| :: units[k] == routes[k].unit
  {
    seq(|routes|, k requires 0 <= k < |routes| => routes[k].unit)
  }

  // --- Every plan is legal -----------------------------------------------

  lemma RouteOf(
    enabled: seq<Segment>, selected: set<SegmentId>, takes: map<SegmentId, Take>, routes: seq<Route>, u: Unit)
    returns (k: nat)
    requires IsPlan(enabled, selected, takes, routes) && u in Units(routes)
    ensures k < |routes| && Units(routes)[k] == u && routes[k].index < |enabled|
    ensures IsUnitOf(enabled, selected, takes, routes[k].index, u)
  {
    k :| 0 <= k < |Units(routes)| && Units(routes)[k] == u;
    assert routes[k] in routes;
  }

  lemma PlanIsWellFormed(
    enabled: seq<Segment>, selected: set<SegmentId>, takes: map<SegmentId, Take>, routes: seq<Route>)
    requires UniqueIds(enabled) && IsPlan(enabled, selected, takes, routes)
    ensures WellFormed(Units(routes))
    ensures Segments(Units(routes)) == set i | 0 <= i < |enabled| && enabled[i].id in selected :: enabled[i].id
  {
    var units := Units(routes);
    forall a, b | 0 <= a < b < |units| ensures units[a].segment != units[b].segment {
      assert routes[a] in routes && routes[b] in routes;
    }
    forall i | 0 <= i < |enabled| && enabled[i].id in selected ensures enabled[i].id in Segments(units) {
      var r :| r in routes && r.index == i;
      var k :| 0 <= k < |routes| && routes[k] == r;
      assert units[k] in units;
    }
    forall u | u in units
      ensures exists i :: 0 <= i < |enabled| && enabled[i].id in selected && u.segment == enabled[i].id
      ensures u.savesVideo && (u.dependency.Some? ==> ValidDependency(Segments(units), u.dependency.value))
    {
      var k := RouteOf(enabled, selected, takes, routes, u);
      forall v | v in units ensures v.segment in selected {
        var l := RouteOf(enabled, selected, takes, routes, v);
      }
    }
  }

  /** The segment at `i` continues its neighbour within the run. */
  predicate RunLink(enabled: seq<Segment>, selected: set<SegmentId>, i: nat)
    requires i < |enabled|
  {
    Linked(enabled, i) && enabled[i - 1].id in selected
  }

  /** How far back the chain of `i` stays inside the run. */
  function RunChain(enabled: seq<Segment>, selected: set<SegmentId>, i: nat): (n: nat)
    requires i < |enabled|
    ensures n <= i
  {
    if RunLink(enabled, selected, i) then RunChain(enabled, selected, i - 1) + 1 else 0
  }

  lemma {:induction false} RunChainBack(enabled: seq<Segment>, selected: set<SegmentId>, i: nat, k: nat)
    requires i < |enabled| && k <= RunChain(enabled, selected, i) && enabled[i].id in selected
    ensures RunChain(enabled, selected, i - k) == RunChain(enabled, selected, i) - k
    ensures enabled[i - k].id in selected
    decreases k
  {
    if k > 0 {
      RunChainBack(enabled, selected, i - 1, k - 1);
    }
  }

  /** In a plan a selected segment continues its direct enabled neighbour, if that is selected too. */
  lemma SameRunIsNeighbour(
    enabled: seq<Segment>, selected: set<SegmentId>, takes: map<SegmentId, Take>, routes: seq<Route>, i: nat)
    requires UniqueIds(enabled) && IsPlan(enabled, selected, takes, routes)
    requires i < |enabled| && enabled[i].id in selected
    ensures var pred := Predecessors(Units(routes));
            && (enabled[i].id in pred <==> RunLink(enabled, selected, i))
            && (enabled[i].id in pred ==> pred[enabled[i].id] == enabled[i - 1].id)
  {
    PlanIsWellFormed(enabled, selected, takes, routes);
    PredecessorsMeaning(Units(routes));
    var r :| r in routes && r.index == i;
    var k :| 0 <= k < |routes| && routes[k] == r;
    assert Units(routes)[k] in Units(routes);
    if enabled[i].id in Predecessors(Units(routes)) {
      var u :| u in Units(routes) && u.segment == enabled[i].id && IsSameRun(u);
      var l := RouteOf(enabled, selected, takes, routes, u);
    }
  }

  /** The same-run predecessor of a selected segment is its neighbour, if that is selected and linked. */
  ghost predicate FollowsNeighbours(enabled: seq<Segment>, selected: set<SegmentId>, pred: map<SegmentId, SegmentId>) {
    forall i: nat {:trigger RunLink(enabled, selected, i)} | i < |enabled| && enabled[i].id in selected ::
      && (enabled[i].id in pred <==> RunLink(enabled, selected, i))
      && (enabled[i].id in pred ==> pred[enabled[i].id] == enabled[i - 1].id)
  }

  lemma PlanFollowsNeighbours(
    enabled: seq<Segment>, selected: set<SegmentId>, takes: map<SegmentId, Take>, routes: seq<Route>)
    requires UniqueIds(enabled) && IsPlan(enabled, selected, takes, routes)
    ensures FollowsNeighbours(enabled, selected, Predecessors(Units(routes)))
  {
    forall i: nat | i < |enabled| && enabled[i].id in selected
      ensures enabled[i].id in Predecessors(Units(routes)) <==> RunLink(enabled, selected, i)
      ensures enabled[i].id in Predecessors(Units(routes)) ==>
                i > 0 && Predecessors(Units(routes))[enabled[i].id] == enabled[i - 1].id
    {
      SameRunIsNeighbour(enabled, selected, takes, routes, i);
    }
  }

  /** Walking predecessors goes back one neighbour at a time, as far as the run goes. */
  lemma {:induction false} WalkGoesBack(
    enabled: seq<Segment>, selected: set<SegmentId>, pred: map<SegmentId, SegmentId>, i: nat, n: nat)
    requires FollowsNeighbours(enabled, selected, pred) && i < |enabled| && enabled[i].id in selected
    ensures Ancestor(pred, enabled[i].id, n) ==
            if n <= RunChain(enabled, selected, i) then Some(enabled[i - n].id) else None
  {
    if n > 0 {
      WalkGoesBack(enabled, selected, pred, i, n - 1);
      if n - 1 <= RunChain(enabled, selected, i) {
        RunChainBack(enabled, selected, i, n - 1);
        var j: nat := i - (n - 1);
        assert enabled[j].id in pred <==> RunLink(enabled, selected, j);
        assert RunChain(enabled, selected, j) == RunChain(enabled, selected, i) - (n - 1);
      }
    }
  }

  /**
   Every draft and every selection yields a legal graph: the cycle check never trips,
   every continuation is dispatched after the segment it continues, and no segment has
   more than one dependent.
   */
  lemma EveryPlanIsLegal(
    enabled: seq<Segment>, selected: set<SegmentId>, takes: map<SegmentId, Take>, routes: seq<Route>)
    requires UniqueIds(enabled) && IsPlan(enabled, selected, takes, routes)
    ensures WellFormed(Units(routes)) && !Cyclic(Predecessors(Units(routes)))
    ensures Topological(Units(routes))
    ensures forall p :: |Successors(Units(routes), p)| <= 1
  {
    var units := Units(routes);
    PlanIsWellFormed(enabled, selected, takes, routes);
    PlanFollowsNeighbours(enabled, selected, takes, routes);
    forall s | s in Predecessors(units) ensures WalkEnds(Predecessors(units), s) {
      PredecessorsMeaning(units);
      var u :| u in units && u.segment == s && IsSameRun(u);
      var k := RouteOf(enabled, selected, takes, routes, u);
      WalkGoesBack(enabled, selected, Predecessors(units), routes[k].index, routes[k].index + 1);
    }
    EndingWalksAreAcyclic(Predecessors(units));
    forall p ensures !DemandedEarly(units, p) {
      NeverDemandedEarly(enabled, selected, takes, routes, p);
    }
    forall p ensures |Successors(units, p)| <= 1 {
      SuccessorsDistinct(units, p);
      forall s | s in Successors(units, p) ensures NeighbourIs(enabled, s, p) {
        OnlyNeighbourContinues(enabled, selected, takes, routes, p, s);
      }
      OneDependent(enabled, Successors(units, p), p);
    }
  }

  lemma NeverDemandedEarly(
    enabled: seq<Segment>, selected: set<SegmentId>, takes: map<SegmentId, Take>, routes: seq<Route>, p: SegmentId)
    requires UniqueIds(enabled) && IsPlan(enabled, selected, takes, routes)
    ensures !DemandedEarly(Units(routes), p)
  {
    var units := Units(routes);
    forall a, b | 0 <= a < b < |units| && units[b].segment == p ensures !Continues(units[a], p) {
      assert routes[a] in routes && routes[b] in routes;
      if units[a].dependency.Some? {
        assert routes[a].index < routes[b].index;
      }
    }
  }

  /** `s` stands directly behind `p` among the enabled segments. */
  ghost predicate NeighbourIs(enabled: seq<Segment>, s: SegmentId, p: SegmentId) {
    exists i, j | 0 <= i && j == i + 1 && j < |enabled| :: enabled[i].id == p && enabled[j].id == s
  }

  lemma OnlyNeighbourContinues(
    enabled: seq<Segment>, selected: set<SegmentId>, takes: map<SegmentId, Take>, routes: seq<Route>,
    p: SegmentId, s: SegmentId)
    requires UniqueIds(enabled) && IsPlan(enabled, selected, takes, routes) && s in Successors(Units(routes), p)
    ensures NeighbourIs(enabled, s, p)
  {
    PlanIsWellFormed(enabled, selected, takes, routes);
    SuccessorsInvertPredecessors(Units(routes), p, s);
    PredecessorsMeaning(Units(routes));
    var u :| u in Units(routes) && u.segment == s && IsSameRun(u);
    var k := RouteOf(enabled, selected, takes, routes, u);
    var j := routes[k].index;
    assert enabled[j - 1].id == p && enabled[j].id == s;
  }

  lemma OneDependent(enabled: seq<Segment>, successors: seq<SegmentId>, p: SegmentId)
    requires UniqueIds(enabled)
    requires forall i, j | 0 <= i < j < |successors| :: successors[i] != successors[j]
    requires forall s | s in successors :: NeighbourIs(enabled, s, p)
    ensures |successors| <= 1
  {
    if |successors| >= 2 {
      TwoApart(successors);
    }
  }

  lemma TwoApart(s: seq<SegmentId>)
    requires |s| >= 2 && forall i, j | 0 <= i < j < |s| :: s[i] != s[j]
    ensures exists a, b :: a in s && b in s && a != b
  {
    assert s[0] in s && s[1] in s;
  }

  /** Some segment that `i` reaches back to without leaving the run gave no certified output. */
  ghost predicate BrokenBefore(enabled: seq<Segment>, selected: set<SegmentId>, certified: set<SegmentId>, i: nat)
    requires i < |enabled|
  {
    exists k :: i - RunChain(enabled, selected, i) <= k < i && enabled[k].id !in certified
  }

  lemma BelowIsBack(
    enabled: seq<Segment>, selected: set<SegmentId>, pred: map<SegmentId, SegmentId>, i: nat, p: SegmentId)
    requires FollowsNeighbours(enabled, selected, pred) && i < |enabled| && enabled[i].id in selected
    ensures Below(pred, enabled[i].id, p) <==>
              exists k :: i - RunChain(enabled, selected, i) <= k < i && enabled[k].id == p
  {
    if Below(pred, enabled[i].id, p) {
      var n: nat :| n > 0 && Ancestor(pred, enabled[i].id, n) == Some(p);
      WalkGoesBack(enabled, selected, pred, i, n);
      assert enabled[i - n].id == p;
    }
    if k :| i - RunChain(enabled, selected, i) <= k < i && enabled[k].id == p {
      WalkGoesBack(enabled, selected, pred, i, i - k);
    }
  }

  /**
   What a failed run looks like: a selected segment is failed for its dependency exactly
   when one of the segments its chain reaches back to, without leaving the run, gave no
   certified output.
   */
  lemma FailureFollowsTheChain(
    enabled: seq<Segment>, selected: set<SegmentId>, takes: map<SegmentId, Take>, routes: seq<Route>,
    certified: set<SegmentId>, i: nat)
    requires UniqueIds(enabled) && IsPlan(enabled, selected, takes, routes)
    requires i < |enabled| && enabled[i].id in selected
    ensures Doomed(Units(routes), certified, enabled[i].id) <==> BrokenBefore(enabled, selected, certified, i)
  {
    EveryPlanIsLegal(enabled, selected, takes, routes);
    PlanFollowsNeighbours(enabled, selected, takes, routes);
    TopologicalOutcome(Units(routes), certified, enabled[i].id);
    UncertifiedBelow(enabled, selected, Predecessors(Units(routes)), certified, i);
  }

  lemma UncertifiedBelow(
    enabled: seq<Segment>, selected: set<SegmentId>, pred: map<SegmentId, SegmentId>, certified: set<SegmentId>, i: nat)
    requires FollowsNeighbours(enabled, selected, pred) && i < |enabled| && enabled[i].id in selected
    ensures (exists p :: Below(pred, enabled[i].id, p) && p !in certified) <==> BrokenBefore(enabled, selected, certified, i)
  {
    if p :| Below(pred, enabled[i].id, p) && p !in certified {
      BelowIsBack(enabled, selected, pred, i, p);
    }
    if k :| i - RunChain(enabled, selected, i) <= k < i && enabled[k].id !in certified {
      BelowIsBack(enabled, selected, pred, i, enabled[k].id);
    }
  }

  /** From a draft and a selection to a validated plan: the only failure is a missing take. */
  method CompileRun(segments: seq<Segment>, selected: set<SegmentId>, observed: map<TakeKey, nat>)
    returns (r: Result<(seq<Route>, map<SegmentId, seq<SegmentId>>), PlanError>)
    requires UniqueIds(segments)
    ensures r.Err? <==> SomeTakeMissing(Enabled(segments), selected, observed, |Enabled(segments)|)
    ensures r.Ok? ==> ValidPlan(Units(r.value.0), r.value.1)
    ensures r.Ok? ==> exists takes :: IsPlan(Enabled(segments), selected, takes, r.value.0)
  {
    var enabled := Enabled(segments);
    EnabledKeepsUnique(segments);
    var predecessors := UnifiedContinuityPredecessors(segments);
    var takes := ResolveHistoricalTakes(enabled, selected, predecessors, observed);
    if takes.Err? {
      return Err(takes.error);
    }
    var routes := ProjectRoutes(enabled, selected, predecessors, observed, takes.value);
    EveryPlanIsLegal(enabled, selected, takes.value, routes);
    var graph := ExecutionContinuityGraph(Units(routes));
    return Ok((routes, graph.value));
  }
}
