/**
 Mapping the frames of a source trim onto the frames of an output clip by half-even
 rounding, and what that mapping hits.
 */
module Retiming {
  import opened Wrappers
  import opened H3Frames

  /** The exact quotient rounded to the nearest integer, ties to even. */
  function RoundDiv(a: int, b: int): int
    requires b > 0
  {
    var q := a / b;
    var twice := 2 * (a - q * b);
    if twice < b || (twice == b && q % 2 == 0) then q else q + 1
  }

  /** The source frame shown by output frame `k`. */
  function FrameAt(start: int, sourceFrames: int, outputFrames: int, k: int): int
    requires sourceFrames >= 1 && 0 <= k < outputFrames
  {
    if outputFrames <= 1 then start else start + RoundDiv(k * (sourceFrames - 1), outputFrames - 1)
  }

  /** The selected range of the source, in frames of the whole resampled file. */
  datatype Trim = Trim(full: int, start: int, end: int)

  predicate ValidTrim(t: Trim) {
    0 <= t.start < t.end <= t.full
  }

  function SourceTrim(duration: real, startSeconds: real, lengthSeconds: real, fps: real): (t: Trim)
    ensures ValidTrim(t)
  {
    var full := Max(1, RoundHalfEven(duration * fps));
    var start := Min(full - 1, Max(0, RoundHalfEven(startSeconds * fps)));
    var end := Min(full, Max(start + 1, RoundHalfEven((startSeconds + lengthSeconds) * fps)));
    Trim(full, start, end)
  }

  /**
   The trim is the best one the file admits: of all lengths of a nonempty file the closest
   to its duration, of all its frames the closest to the requested start, and of all ends
   that leave something the closest to the requested end.
   */
  ghost predicate CutAsRequested(t: Trim, duration: real, startSeconds: real, lengthSeconds: real, fps: real) {
    && Closest(t.full, duration * fps, 1, None)
    && Closest(t.start, startSeconds * fps, 0, Some(t.full - 1))
    && Closest(t.end, (startSeconds + lengthSeconds) * fps, t.start + 1, Some(t.full))
  }

  lemma TrimIsClosest(duration: real, startSeconds: real, lengthSeconds: real, fps: real)
    ensures CutAsRequested(
              SourceTrim(duration, startSeconds, lengthSeconds, fps), duration, startSeconds, lengthSeconds, fps)
  {
    var t := SourceTrim(duration, startSeconds, lengthSeconds, fps);
    ClampIsClosest(t.full, duration * fps, 1, None);
    ClampIsClosest(t.start, startSeconds * fps, 0, Some(t.full - 1));
    ClampIsClosest(t.end, (startSeconds + lengthSeconds) * fps, t.start + 1, Some(t.full));
  }

  lemma Spread(startSeconds: real, lengthSeconds: real, fps: real)
    ensures (startSeconds + lengthSeconds) * fps == startSeconds * fps + lengthSeconds * fps
  {
  }

  /** A requested range of at least one frame inside the file keeps its length, to within a frame. */
  lemma TrimKeepsLength(duration: real, startSeconds: real, lengthSeconds: real, fps: real)
    requires startSeconds * fps >= 0.0 && lengthSeconds * fps >= 1.0
    requires (startSeconds + lengthSeconds) * fps <= SourceTrim(duration, startSeconds, lengthSeconds, fps).full as real
    ensures var t := SourceTrim(duration, startSeconds, lengthSeconds, fps);
            && Distance(startSeconds * fps, t.start) <= 0.5
            && Distance(lengthSeconds * fps, t.end - t.start) <= 1.0
  {
    var full := SourceTrim(duration, startSeconds, lengthSeconds, fps).full;
    var first, last := startSeconds * fps, (startSeconds + lengthSeconds) * fps;
    Spread(startSeconds, lengthSeconds, fps);
    RoundingIsNearestEven(first, RoundHalfEven(first));
    RoundingIsNearestEven(last, RoundHalfEven(last));
    RoundingIsMonotone(first, (full - 1) as real);
    RoundingKeepsIntegers(full - 1);
    RoundingIsMonotone(0.0, first);
    RoundingKeepsIntegers(0);
    RoundingIsMonotone(last, full as real);
    RoundingKeepsIntegers(full);
  }

  // --- Integer rounding --------------------------------------------------

  lemma ProductsKeepOrder(x: int, y: int, c: int)
    requires x <= y && c >= 0
    ensures x * c <= y * c
  {
  }

  lemma DivisionIsUnique(a: int, b: int, q: int, r: int)
    requires b > 0 && a == q * b + r && 0 <= r < b
    ensures a / b == q
  {
    var p := a / b;
    if p > q {
      ProductsKeepOrder(q + 1, p, b);
    } else if p < q {
      ProductsKeepOrder(p + 1, q, b);
    }
  }

  /** Placing `a` above a multiple of `b` by less than `b` fixes its rounding. */
  lemma RoundDivOf(a: int, b: int, q: int, r: int)
    requires b > 0 && a == q * b + r && 0 <= r < b
    ensures RoundDiv(a, b) == if 2 * r < b || (2 * r == b && q % 2 == 0) then q else q + 1
  {
    DivisionIsUnique(a, b, q, r);
  }

  lemma RoundDivOfMultiple(q: int, b: int)
    requires b > 0
    ensures RoundDiv(q * b, b) == q
  {
    RoundDivOf(q * b, b, q, 0);
  }

  lemma Divide(a: int, b: int) returns (q: int, r: int)
    requires b > 0
    ensures a == q * b + r && 0 <= r < b
  {
    q, r := a / b, a % b;
  }

  lemma NextMultiple(q: int, b: int)
    ensures (q + 1) * b == q * b + b
    ensures (q + 2) * b == q * b + b + b
  {
  }

  lemma RoundDivIsMonotone(a: int, c: int, b: int)
    requires b > 0 && a <= c
    ensures RoundDiv(a, b) <= RoundDiv(c, b)
  {
    var p, r := Divide(a, b);
    var q, t := Divide(c, b);
    RoundDivOf(a, b, p, r);
    RoundDivOf(c, b, q, t);
    if p > q {
      NextMultiple(q, b);
      ProductsKeepOrder(q + 1, p, b);
    }
  }

  /** A step shorter than the divisor moves the rounding by at most one. */
  lemma ShortStep(a: int, step: int, b: int)
    requires b > 0 && 0 <= step < b
    ensures RoundDiv(a, b) <= RoundDiv(a + step, b) <= RoundDiv(a, b) + 1
  {
    RoundDivIsMonotone(a, a + step, b);
    var q, r := Divide(a, b);
    RoundDivOf(a, b, q, r);
    if r + step < b {
      RoundDivOf(a + step, b, q, r + step);
    } else {
      NextMultiple(q, b);
      RoundDivOf(a + step, b, q + 1, r + step - b);
    }
  }

  /** A step longer than the divisor always moves the rounding. */
  lemma LongStep(a: int, step: int, b: int)
    requires b > 0 && step > b
    ensures RoundDiv(a, b) < RoundDiv(a + step, b)
  {
    var q, r := Divide(a, b);
    RoundDivOf(a, b, q, r);
    NextMultiple(q, b);
    if r + 1 < b {
      RoundDivOf(a + b + 1, b, q + 1, r + 1);
    } else {
      RoundDivOf(a + b + 1, b, q + 2, r + 1 - b);
    }
    RoundDivIsMonotone(a + b + 1, a + step, b);
  }

  lemma ScalingKeepsOrder(x: real, y: real, c: real)
    requires c > 0.0
    ensures x < y <==> x * c < y * c
    ensures x == y <==> x * c == y * c
  {
    if x < y {
      ScalingUp(x, y, c);
    } else if y < x {
      ScalingUp(y, x, c);
    }
  }

  lemma ScalingUp(x: real, y: real, c: real)
    requires c > 0.0 && x < y
    ensures x * c < y * c
  {
    assert (y - x) * c > 0.0;
  }

  lemma FloorIsUnique(x: real, n: int)
    requires n as real <= x < n as real + 1.0
    ensures x.Floor == n
  {
  }

  lemma QuotientSplits(a: int, b: int, q: int, r: int)
    requires b > 0 && a == q * b + r
    ensures a as real / b as real == q as real + r as real / b as real
  {
    var c := b as real;
    assert a as real == q as real * c + r as real;
    assert q as real * c / c == q as real;
  }

  /** The integer form is exactly the half-even rounding of the real quotient. */
  lemma RoundDivIsRounding(a: int, b: int)
    requires b > 0
    ensures RoundDiv(a, b) == RoundHalfEven(a as real / b as real)
  {
    var q, r := Divide(a, b);
    RoundDivOf(a, b, q, r);
    QuotientSplits(a, b, q, r);
    var rest := r as real / b as real;
    QuotientTimesDivisor(r as real, b as real);
    RestCompares(r, b, rest);
    FloorIsUnique(a as real / b as real, q);
  }

  lemma Compares(x: real, y: real, c: real, xc: real, yc: real)
    requires c > 0.0 && xc == x * c && yc == y * c
    ensures x < y <==> xc < yc
    ensures x == y <==> xc == yc
  {
    ScalingKeepsOrder(x, y, c);
  }

  lemma RestCompares(r: int, b: int, rest: real)
    requires b > 0 && 0 <= r < b && rest * b as real == r as real
    ensures 0.0 <= rest < 1.0
    ensures rest < 0.5 <==> 2 * r < b
    ensures rest == 0.5 <==> 2 * r == b
  {
    var c := b as real;
    Compares(rest, 0.0, c, r as real, 0.0);
    Compares(rest, 1.0, c, r as real, c);
    Compares(rest, 0.5, c, r as real, 0.5 * c);
  }

  // --- The frame map -----------------------------------------------------

  lemma FrameIsMonotone(start: int, s: int, o: int, j: int, k: int)
    requires s >= 1 && 0 <= j <= k < o
    ensures FrameAt(start, s, o, j) <= FrameAt(start, s, o, k)
  {
    if o > 1 {
      ProductsKeepOrder(j, k, s - 1);
      RoundDivIsMonotone(j * (s - 1), k * (s - 1), o - 1);
    }
  }

  /** The map stays inside the trim and, with more than one output frame, hits both ends. */
  lemma FrameStaysInTrim(start: int, s: int, o: int, k: int)
    requires s >= 1 && 0 <= k < o
    ensures start <= FrameAt(start, s, o, k) < start + s
    ensures FrameAt(start, s, o, 0) == start
    ensures o > 1 ==> FrameAt(start, s, o, o - 1) == start + s - 1
  {
    if o > 1 {
      RoundDivOfMultiple(0, o - 1);
      RoundDivOfMultiple(s - 1, o - 1);
      assert (o - 1) * (s - 1) == (s - 1) * (o - 1);
      FrameIsMonotone(start, s, o, 0, k);
      FrameIsMonotone(start, s, o, k, o - 1);
    }
  }

  /**
   Output frame `k` shows the source frame closest to its exact place: the output's frames
   spread evenly from the first frame of the trim to the last.
   */
  lemma FrameIsClosest(start: int, s: int, o: int, k: int)
    requires s >= 1 && 0 <= k < o && o > 1
    ensures Closest(
              FrameAt(start, s, o, k) - start, (k * (s - 1)) as real / (o - 1) as real, 0, Some(s - 1))
  {
    FrameStaysInTrim(start, s, o, k);
    RoundDivIsRounding(k * (s - 1), o - 1);
    ClampIsClosest(FrameAt(start, s, o, k) - start, (k * (s - 1)) as real / (o - 1) as real, 0, Some(s - 1));
  }

  /** Equal lengths are not retimed at all. */
  lemma EqualLengthsShift(start: int, s: int, k: int)
    requires 0 <= k < s
    ensures FrameAt(start, s, s, k) == start + k
  {
    if s > 1 {
      RoundDivOfMultiple(k, s - 1);
    }
  }

  lemma NextFrameMoves(start: int, s: int, o: int, k: int)
    requires s >= o && 0 <= k && k + 1 < o
    ensures FrameAt(start, s, o, k) < FrameAt(start, s, o, k + 1)
  {
    if s == o {
      EqualLengthsShift(start, s, k);
      EqualLengthsShift(start, s, k + 1);
    } else {
      NextMultiple(k, s - 1);
      LongStep(k * (s - 1), s - 1, o - 1);
    }
  }

  /** With at least as many source frames as output frames no source frame is shown twice. */
  lemma NoFrameRepeats(start: int, s: int, o: int, j: int, k: int)
    requires s >= o && 0 <= j < k < o
    ensures FrameAt(start, s, o, j) < FrameAt(start, s, o, k)
  {
    NextFrameMoves(start, s, o, j);
    FrameIsMonotone(start, s, o, j + 1, k);
  }

  lemma NextFrameIsNear(start: int, s: int, o: int, k: int)
    requires 1 <= s <= o && 0 <= k && k + 1 < o
    ensures FrameAt(start, s, o, k + 1) <= FrameAt(start, s, o, k) + 1
  {
    if s == o {
      EqualLengthsShift(start, s, k);
      EqualLengthsShift(start, s, k + 1);
    } else {
      NextMultiple(k, s - 1);
      ShortStep(k * (s - 1), s - 1, o - 1);
    }
  }

  /** With at most as many source frames as output frames every source frame is shown. */
  lemma {:induction false} EveryFrameIsShown(start: int, s: int, o: int, frame: int, upTo: int) returns (k: int)
    requires 1 <= s <= o && 0 <= upTo < o && start <= frame <= FrameAt(start, s, o, upTo)
    ensures 0 <= k <= upTo && FrameAt(start, s, o, k) == frame
    decreases upTo
  {
    FrameStaysInTrim(start, s, o, upTo);
    if frame == FrameAt(start, s, o, upTo) {
      k := upTo;
    } else {
      NextFrameIsNear(start, s, o, upTo - 1);
      k := EveryFrameIsShown(start, s, o, frame, upTo - 1);
    }
  }

  ghost predicate Shows(start: int, s: int, o: int, frame: int)
    requires s >= 1
  {
    exists k :: 0 <= k < o && FrameAt(start, s, o, k) == frame
  }

  lemma RetimingCovers(start: int, s: int, o: int)
    requires 1 <= s <= o
    ensures forall frame :: Shows(start, s, o, frame) <==> start <= frame < start + s
  {
    forall frame ensures Shows(start, s, o, frame) <==> start <= frame < start + s {
      if start <= frame < start + s {
        FrameStaysInTrim(start, s, o, o - 1);
        var k := EveryFrameIsShown(start, s, o, frame, o - 1);
      }
      if Shows(start, s, o, frame) {
        var k :| 0 <= k < o && FrameAt(start, s, o, k) == frame;
        FrameStaysInTrim(start, s, o, k);
      }
    }
  }

  /**
   The compiled mapping of one clip. The final clamp to the file never changes an entry.
   */
  method SourceMapping(trim: Trim, outputFrames: int) returns (mapping: seq<int>)
    requires ValidTrim(trim) && outputFrames >= 0
    ensures |mapping| == outputFrames
    ensures forall k | 0 <= k < outputFrames ::
              mapping[k] == FrameAt(trim.start, trim.end - trim.start, outputFrames, k)
    ensures forall k | 0 <= k < outputFrames :: trim.start <= mapping[k] < trim.end
  {
    mapping := [];
    var sourceCount := trim.end - trim.start;
    var index := 0;
    while index < outputFrames
      invariant 0 <= index <= outputFrames && |mapping| == index
      invariant forall k | 0 <= k < index :: mapping[k] == FrameAt(trim.start, sourceCount, outputFrames, k)
      invariant forall k | 0 <= k < index :: trim.start <= mapping[k] < trim.end
    {
      var sourceIndex := trim.start;
      if outputFrames > 1 {
        sourceIndex := trim.start + RoundDiv(index * (sourceCount - 1), outputFrames - 1);
      }
      FrameStaysInTrim(trim.start, sourceCount, outputFrames, index);
      mapping := mapping + [Min(trim.full - 1, Max(0, sourceIndex))];
      index := index + 1;
    }
  }
}
