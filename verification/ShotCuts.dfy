/**
 Turning detected scene changes into shot boundaries: a greedy filter that keeps no shot
 shorter than the minimum, and keeps as many cuts as any choice could.
 */
module ShotCuts {
  import opened Wrappers
  import opened H3Frames

  datatype ShotError = BadFrameRate | BadTotalFrames | BadMinimum

  /** `cuts` starts at 0 and ends at the total; `removed` counts the cuts given in the warning. */
  datatype Shots = Shots(cuts: seq<int>, shotCount: nat, removed: nat)

  predicate StrictlyIncreasing(s: seq<int>) {
    forall i, j | 0 <= i < j < |s| :: s[i] < s[j]
  }

  // --- Candidates --------------------------------------------------------

  function FrameOf(seconds: real, frameRate: real): int {
    Max(0, RoundHalfEven(seconds * frameRate))
  }

  /** The frame of a scene time: of all frames the closest. */
  lemma FrameOfIsClosest(seconds: real, frameRate: real)
    ensures Closest(FrameOf(seconds, frameRate), seconds * frameRate, 0, None)
  {
    ClampIsClosest(FrameOf(seconds, frameRate), seconds * frameRate, 0, None);
  }

  /** A strictly increasing sequence with one more element. */
  function InsertFrame(frame: int, s: seq<int>): seq<int> {
    if s == [] || frame < s[0] then [frame] + s
    else if frame == s[0] then s
    else [s[0]] + InsertFrame(frame, s[1..])
  }

  function SortedSet(s: seq<int>): seq<int> {
    if s == [] then [] else InsertFrame(s[|s| - 1], SortedSet(s[..|s| - 1]))
  }

  lemma {:induction false} InsertKeepsOrder(frame: int, s: seq<int>)
    requires StrictlyIncreasing(s)
    ensures StrictlyIncreasing(InsertFrame(frame, s))
    ensures forall y :: y in InsertFrame(frame, s) <==> y == frame || y in s
  {
    if s != [] && frame > s[0] {
      InsertKeepsOrder(frame, s[1..]);
      var rest := InsertFrame(frame, s[1..]);
      assert s == [s[0]] + s[1..];
      forall k | 0 <= k < |rest| ensures s[0] < rest[k] {
        assert rest[k] in rest;
      }
    }
  }

  lemma {:induction false} SortedSetIsSorted(s: seq<int>)
    ensures StrictlyIncreasing(SortedSet(s))
    ensures forall y :: y in SortedSet(s) <==> y in s
  {
    if s != [] {
      var before := s[..|s| - 1];
      SortedSetIsSorted(before);
      InsertKeepsOrder(s[|s| - 1], SortedSet(before));
      assert s == before + [s[|s| - 1]];
    }
  }

  /** The distinct frames of the reported scene times, in order; negative times are ignored. */
  method SceneFrames(times: seq<real>, frameRate: real) returns (frames: seq<int>)
    ensures StrictlyIncreasing(frames)
    ensures forall f :: f in frames <==> exists t :: t in times && t >= 0.0 && FrameOf(t, frameRate) == f
  {
    var found: seq<int> := [];
    for i := 0 to |times|
      invariant forall f :: f in found <==> exists j :: 0 <= j < i && times[j] >= 0.0 && FrameOf(times[j], frameRate) == f
    {
      if times[i] >= 0.0 {
        found := found + [FrameOf(times[i], frameRate)];
      }
    }
    SortedSetIsSorted(found);
    frames := SortedSet(found);
    forall f ensures f in found <==> exists t :: t in times && t >= 0.0 && FrameOf(t, frameRate) == f {
      if f in found {
        var j :| 0 <= j < |times| && times[j] >= 0.0 && FrameOf(times[j], frameRate) == f;
        assert times[j] in times;
      }
    }
  }

  lemma AppendIncreases(s: seq<int>, x: int)
    requires StrictlyIncreasing(s) && forall y | y in s :: y < x
    ensures StrictlyIncreasing(s + [x])
  {
    assert forall i | 0 <= i < |s| :: s[i] in s;
  }

  method Inside(frames: seq<int>, totalFrames: int) returns (candidates: seq<int>)
    requires StrictlyIncreasing(frames)
    ensures StrictlyIncreasing(candidates)
    ensures forall f :: f in candidates <==> f in frames && 0 < f < totalFrames
  {
    candidates := [];
    for i := 0 to |frames|
      invariant StrictlyIncreasing(candidates)
      invariant forall f :: f in candidates <==> f in frames[..i] && 0 < f < totalFrames
    {
      assert frames[..i + 1] == frames[..i] + [frames[i]];
      assert forall f | f in candidates :: f < frames[i];
      if 0 < frames[i] < totalFrames {
        AppendIncreases(candidates, frames[i]);
        candidates := candidates + [frames[i]];
      }
    }
    assert frames[..|frames|] == frames;
  }

  // --- Choosing cuts -----------------------------------------------------

  ghost predicate GapsAtLeast(cuts: seq<int>, minShot: int) {
    forall i, j | 0 <= i && j == i + 1 && j < |cuts| :: cuts[j] - cuts[i] >= minShot
  }

  /** A choice of cuts, after the opening 0, in which no shot is shorter than the minimum. */
  ghost predicate Admissible(cuts: seq<int>, totalFrames: int, minShot: int) {
    && |cuts| >= 1 && cuts[0] == 0
    && GapsAtLeast(cuts, minShot)
    && (|cuts| > 1 ==> totalFrames - cuts[|cuts| - 1] >= minShot)
  }

  predicate DrawnFrom(cuts: seq<int>, candidates: seq<int>) {
    forall i | 0 < i < |cuts| :: cuts[i] in candidates
  }

  /** A cut that cannot be added: too close to the end, or too close behind a kept one. */
  ghost predicate Blocked(c: int, cuts: seq<int>, totalFrames: int, minShot: int) {
    totalFrames - c < minShot || exists k :: k in cuts && k <= c < k + minShot
  }

  lemma {:induction false} GapsAccumulate(cuts: seq<int>, totalFrames: int, minShot: int, i: nat, j: nat)
    requires Admissible(cuts, totalFrames, minShot) && minShot >= 1 && i < j < |cuts|
    ensures cuts[i] + minShot <= cuts[j]
    decreases j
  {
    assert cuts[j] - cuts[j - 1] >= minShot;
    if i < j - 1 {
      GapsAccumulate(cuts, totalFrames, minShot, i, j - 1);
    }
  }

  /** The greedy cuts stay ahead of every other admissible choice. */
  lemma {:induction false} GreedyStaysAhead(
    cuts: seq<int>, other: seq<int>, candidates: seq<int>, totalFrames: int, minShot: int, i: nat)
    requires minShot >= 1 && Admissible(cuts, totalFrames, minShot)
    requires forall c | c in candidates :: Blocked(c, cuts, totalFrames, minShot)
    requires Admissible(other, totalFrames, minShot) && DrawnFrom(other, candidates) && i < |other|
    ensures i < |cuts| && cuts[i] <= other[i]
  {
    if i > 0 {
      GreedyStaysAhead(cuts, other, candidates, totalFrames, minShot, i - 1);
      var c := other[i];
      assert other[i] - other[i - 1] >= minShot;
      assert totalFrames - c >= minShot by {
        if i < |other| - 1 { GapsAccumulate(other, totalFrames, minShot, i, |other| - 1); }
      }
      assert Blocked(c, cuts, totalFrames, minShot);
      var k :| k in cuts && k <= c < k + minShot;
      var j :| 0 <= j < |cuts| && cuts[j] == k;
      if j < i - 1 { GapsAccumulate(cuts, totalFrames, minShot, j, i - 1); }
      if i < j { GapsAccumulate(cuts, totalFrames, minShot, i, j); }
    }
  }

  /** After `i` candidates: an admissible choice among them that blocks all the others. */
  ghost predicate Chosen(candidates: seq<int>, i: nat, cuts: seq<int>, totalFrames: int, minShot: int)
    requires i <= |candidates|
  {
    && Admissible(cuts, totalFrames, minShot)
    && DrawnFrom(cuts, candidates)
    && (i < |candidates| ==> cuts[|cuts| - 1] < candidates[i])
    && (forall j | 0 <= j < i :: Blocked(candidates[j], cuts, totalFrames, minShot))
  }

  lemma RemovingIsRight(candidates: seq<int>, i: nat, cuts: seq<int>, totalFrames: int, minShot: int)
    requires i < |candidates| && StrictlyIncreasing(candidates) && Chosen(candidates, i, cuts, totalFrames, minShot)
    requires candidates[i] - cuts[|cuts| - 1] < minShot || totalFrames - candidates[i] < minShot
    ensures Chosen(candidates, i + 1, cuts, totalFrames, minShot)
  {
    assert cuts[|cuts| - 1] in cuts;
  }

  lemma KeepingIsRight(candidates: seq<int>, i: nat, cuts: seq<int>, totalFrames: int, minShot: int)
    requires i < |candidates| && StrictlyIncreasing(candidates) && Chosen(candidates, i, cuts, totalFrames, minShot)
    requires candidates[i] - cuts[|cuts| - 1] >= minShot && totalFrames - candidates[i] >= minShot && minShot >= 1
    ensures Chosen(candidates, i + 1, cuts + [candidates[i]], totalFrames, minShot)
  {
    CutAppends(candidates, cuts, candidates[i], totalFrames, minShot);
    forall j | 0 <= j < i + 1 ensures Blocked(candidates[j], cuts + [candidates[i]], totalFrames, minShot) {
      if j < i {
        BlockedStays(candidates[j], cuts, candidates[i], totalFrames, minShot);
      } else {
        assert candidates[i] in cuts + [candidates[i]];
      }
    }
  }

  lemma CutAppends(candidates: seq<int>, cuts: seq<int>, c: int, totalFrames: int, minShot: int)
    requires Admissible(cuts, totalFrames, minShot) && DrawnFrom(cuts, candidates) && c in candidates
    requires c - cuts[|cuts| - 1] >= minShot && totalFrames - c >= minShot
    ensures Admissible(cuts + [c], totalFrames, minShot) && DrawnFrom(cuts + [c], candidates)
  {
  }

  lemma BlockedStays(c: int, cuts: seq<int>, added: int, totalFrames: int, minShot: int)
    requires Blocked(c, cuts, totalFrames, minShot)
    ensures Blocked(c, cuts + [added], totalFrames, minShot)
  {
    if k :| k in cuts && k <= c < k + minShot {
      assert k in cuts + [added];
    }
  }

  /** The filter loop. */
  method KeepCuts(candidates: seq<int>, totalFrames: int, minShot: int) returns (cuts: seq<int>, removed: nat)
    requires StrictlyIncreasing(candidates) && forall c | c in candidates :: 0 < c < totalFrames
    requires totalFrames >= 1 && minShot >= 1
    ensures Admissible(cuts, totalFrames, minShot) && DrawnFrom(cuts, candidates)
    ensures |cuts| - 1 + removed == |candidates|
    ensures forall c | c in candidates :: Blocked(c, cuts, totalFrames, minShot)
  {
    cuts, removed := [0], 0;
    assert candidates != [] ==> candidates[0] in candidates;
    for i := 0 to |candidates|
      invariant Chosen(candidates, i, cuts, totalFrames, minShot)
      invariant |cuts| - 1 + removed == i
    {
      var frame := candidates[i];
      if frame - cuts[|cuts| - 1] < minShot || totalFrames - frame < minShot {
        RemovingIsRight(candidates, i, cuts, totalFrames, minShot);
        removed := removed + 1;
      } else {
        KeepingIsRight(candidates, i, cuts, totalFrames, minShot);
        cuts := cuts + [frame];
      }
    }
  }

  /** The frames at which a scene change was reported strictly inside the clip. */
  ghost predicate IsCandidates(times: seq<real>, frameRate: real, totalFrames: int, candidates: seq<int>) {
    && StrictlyIncreasing(candidates)
    && forall f :: f in candidates <==>
         0 < f < totalFrames && exists t :: t in times && t >= 0.0 && FrameOf(t, frameRate) == f
  }

  /** Boundaries from 0 to the end, in order, of candidate cuts, none too close unless there is one shot. */
  ghost predicate AreShots(cuts: seq<int>, candidates: seq<int>, totalFrames: int, minShot: int) {
    && |cuts| >= 2 && cuts[0] == 0 && cuts[|cuts| - 1] == totalFrames
    && StrictlyIncreasing(cuts)
    && (|cuts| > 2 ==> GapsAtLeast(cuts, minShot))
    && DrawnFrom(cuts[..|cuts| - 1], candidates)
  }

  /**
   Shots from 0 to the end, none shorter than the minimum unless there is only one, with
   every candidate either kept or counted as removed, and as many kept as in any other
   admissible choice of the candidates.
   */
  method DetectShots(times: seq<real>, frameRate: real, totalFrames: int, minShot: int)
    returns (r: Result<Shots, ShotError>, ghost candidates: seq<int>)
    ensures r.Ok? <==> frameRate > 0.0 && totalFrames >= 1 && minShot >= 1
    ensures r.Ok? ==> IsCandidates(times, frameRate, totalFrames, candidates)
    ensures r.Ok? ==> AreShots(r.value.cuts, candidates, totalFrames, minShot)
    ensures r.Ok? ==> r.value.shotCount == |r.value.cuts| - 1
    ensures r.Ok? ==> (|r.value.cuts| - 2) + r.value.removed == |candidates|
    ensures r.Ok? ==> forall other | Admissible(other, totalFrames, minShot) && DrawnFrom(other, candidates) ::
                        |other| <= |r.value.cuts| - 1
  {
    candidates := [];
    if frameRate <= 0.0 { return Err(BadFrameRate), candidates; }
    if totalFrames < 1 { return Err(BadTotalFrames), candidates; }
    if minShot < 1 { return Err(BadMinimum), candidates; }
    var frames := SceneFrames(times, frameRate);
    var inside := Inside(frames, totalFrames);
    candidates := inside;
    var cuts, removed := KeepCuts(inside, totalFrames, minShot);
    forall other | Admissible(other, totalFrames, minShot) && DrawnFrom(other, inside) ensures |other| <= |cuts| {
      GreedyStaysAhead(cuts, other, inside, totalFrames, minShot, |other| - 1);
    }
    ClosedAreShots(cuts, inside, totalFrames, minShot);
    return Ok(Shots(cuts + [totalFrames], |cuts|, removed)), candidates;
  }

  lemma ClosedAreShots(cuts: seq<int>, candidates: seq<int>, totalFrames: int, minShot: int)
    requires Admissible(cuts, totalFrames, minShot) && DrawnFrom(cuts, candidates) && minShot >= 1 && totalFrames >= 1
    ensures AreShots(cuts + [totalFrames], candidates, totalFrames, minShot)
  {
    CutsIncrease(cuts, totalFrames, minShot);
    assert (cuts + [totalFrames])[..|cuts|] == cuts;
  }

  lemma CutsIncrease(cuts: seq<int>, totalFrames: int, minShot: int)
    requires Admissible(cuts, totalFrames, minShot) && minShot >= 1 && totalFrames >= 1
    ensures StrictlyIncreasing(cuts + [totalFrames])
  {
    var closed := cuts + [totalFrames];
    forall i, j | 0 <= i < j < |closed| ensures closed[i] < closed[j] {
      if j < |cuts| {
        GapsAccumulate(cuts, totalFrames, minShot, i, j);
      } else if i < |cuts| - 1 {
        GapsAccumulate(cuts, totalFrames, minShot, i, |cuts| - 1);
      }
    }
  }
}
