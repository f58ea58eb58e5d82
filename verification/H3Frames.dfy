/**
 The frame counts MiniMax H3 accepts: half-even rounding of a duration to frames, and
 alignment of that count to 5 modulo 17.
 */
module H3Frames {
  import opened Wrappers

  const MAX_SEGMENT_FRAMES := 512

  /** Rounding to the nearest integer, ties to the even one. */
  function RoundHalfEven(x: real): int {
    var f := x.Floor;
    var rest := x - f as real;
    if rest < 0.5 || (rest == 0.5 && f % 2 == 0) then f else f + 1
  }

  /** The least aligned count that is at least `raw`, by the modular formula. */
  function AlignUp(raw: int): int {
    raw + (5 - raw % 17) % 17
  }

  function Max(a: int, b: int): int {
    if a >= b then a else b
  }

  function Min(a: int, b: int): int {
    if a <= b then a else b
  }

  function RawFrames(durationSeconds: real, fps: real): int {
    Max(5, RoundHalfEven(durationSeconds * fps))
  }

  datatype AlignError = TooManyFrames(aligned: int)

  function AlignH3Frames(durationSeconds: real, fps: real): (r: Result<int, AlignError>)
    ensures r.Ok? ==> 5 <= r.value <= 498 && r.value % 17 == 5
  {
    var raw := RawFrames(durationSeconds, fps);
    AlignUpIsLeast(raw);
    var aligned := AlignUp(raw);
    if aligned > MAX_SEGMENT_FRAMES then Err(TooManyFrames(aligned)) else Ok(aligned)
  }

  /** The frames sampled for a segment that re-reads `overlap` frames of its predecessor. */
  function SampleFrames(visible: int, overlap: int): int {
    AlignUp(visible + overlap)
  }

  const OVERLAPS: set<int> := {5, 22, 39, 56}

  // --- Rounding ----------------------------------------------------------

  /** The rounded value is the only integer that is nearest, with ties broken to even. */
  lemma RoundingIsNearestEven(x: real, n: int)
    ensures n == RoundHalfEven(x) <==>
              -0.5 <= x - n as real <= 0.5 && ((x - n as real == 0.5 || x - n as real == -0.5) ==> n % 2 == 0)
  {
    var f := x.Floor;
    if n < f {
      assert n as real <= f as real - 1.0;
    } else if n > f + 1 {
      assert n as real >= f as real + 2.0;
    }
  }

  lemma FloorIsMonotone(x: real, y: real)
    requires x <= y
    ensures x.Floor <= y.Floor
  {
  }

  lemma RoundingIsMonotone(x: real, y: real)
    requires x <= y
    ensures RoundHalfEven(x) <= RoundHalfEven(y)
  {
    FloorIsMonotone(x, y);
  }

  lemma RoundingKeepsIntegers(n: int)
    ensures RoundHalfEven(n as real) == n
  {
  }

  function Distance(x: real, n: int): real {
    if x <= n as real then n as real - x else x - n as real
  }

  /** Frame `n` is a better choice for the exact position `x` than frame `m`: nearer, or as near and even. */
  predicate Beats(n: int, m: int, x: real) {
    Distance(x, n) < Distance(x, m) || (Distance(x, n) == Distance(x, m) && n % 2 == 0)
  }

  lemma ClampedRoundingIsClosest(x: real, lo: int, n: int, m: int)
    requires n == RoundHalfEven(x) || (n == lo && RoundHalfEven(x) < lo) || (n < RoundHalfEven(x) && m <= n)
    requires lo <= m && m != n
    ensures Beats(n, m, x)
  {
    var r := RoundHalfEven(x);
    RoundingIsNearestEven(x, r);
    if m < r {
      assert m as real <= r as real - 1.0;
    } else if m > r {
      assert m as real >= r as real + 1.0;
    }
    if n < r {
      assert n as real <= r as real - 1.0;
    } else if n > r {
      assert n as real >= r as real + 1.0;
    }
    if m < n {
      assert m as real <= n as real - 1.0;
    } else {
      assert m as real >= n as real + 1.0;
    }
  }

  /** Of all frames from `lo` on, up to `hi` if there is an end, `n` is the closest to `x`. */
  ghost predicate Closest(n: int, x: real, lo: int, hi: Option<int>) {
    && lo <= n && (hi.Some? ==> n <= hi.value)
    && forall m | lo <= m && (hi.Some? ==> m <= hi.value) && m != n :: Beats(n, m, x)
  }

  lemma ClampIsClosest(n: int, x: real, lo: int, hi: Option<int>)
    requires lo <= n && (hi.Some? ==> n <= hi.value)
    requires || n == RoundHalfEven(x)
             || (n == lo && RoundHalfEven(x) < lo)
             || (hi == Some(n) && n < RoundHalfEven(x))
    ensures Closest(n, x, lo, hi)
  {
    forall m | lo <= m && (hi.Some? ==> m <= hi.value) && m != n ensures Beats(n, m, x) {
      ClampedRoundingIsClosest(x, lo, n, m);
    }
  }

  // --- Alignment ---------------------------------------------------------

  lemma AlignUpIsLeast(raw: int)
    ensures raw <= AlignUp(raw) <= raw + 16 && AlignUp(raw) % 17 == 5
    ensures forall n | n >= raw && n % 17 == 5 :: AlignUp(raw) <= n
  {
    var aligned := AlignUp(raw);
    assert aligned % 17 == 5;
    forall n | n >= raw && n % 17 == 5 ensures aligned <= n {
      assert (aligned - n) % 17 == 0;
    }
  }

  /** The frames of a duration: of all counts from five on the closest. */
  lemma RawFramesAreClosest(durationSeconds: real, fps: real)
    ensures Closest(RawFrames(durationSeconds, fps), durationSeconds * fps, 5, None)
  {
    ClampIsClosest(RawFrames(durationSeconds, fps), durationSeconds * fps, 5, None);
  }

  /** The least accepted frame count that is not below the count closest to the duration. */
  ghost predicate AlignedAsRequested(n: int, durationSeconds: real, fps: real) {
    5 <= n <= 498 && n % 17 == 5 && RoundedWithin(n, durationSeconds * fps)
  }

  ghost predicate RoundedWithin(n: int, x: real) {
    exists raw :: Closest(raw, x, 5, None) && raw <= n < raw + 17
  }

  /** Whether any admissible frame count exists at or above the rounded duration. */
  predicate Alignable(durationSeconds: real, fps: real) {
    RawFrames(durationSeconds, fps) <= 498
  }

  /**
   An accepted duration compiles to the least count congruent to 5 modulo 17 that is not
   below the frames closest to it, five at least; it is rejected exactly above 498.
   */
  lemma AlignmentIsLeast(durationSeconds: real, fps: real)
    ensures Closest(RawFrames(durationSeconds, fps), durationSeconds * fps, 5, None)
    ensures var raw := RawFrames(durationSeconds, fps);
            match AlignH3Frames(durationSeconds, fps)
            case Ok(n) => n >= raw && n % 17 == 5 && forall m | m >= raw && m % 17 == 5 :: n <= m
            case Err(_) => true
    ensures AlignH3Frames(durationSeconds, fps).Ok? <==> Alignable(durationSeconds, fps)
  {
    var raw := RawFrames(durationSeconds, fps);
    RawFramesAreClosest(durationSeconds, fps);
    AlignUpIsLeast(raw);
    assert 498 % 17 == 5;
  }

  lemma AlignmentIsAsRequested(durationSeconds: real, fps: real)
    requires AlignH3Frames(durationSeconds, fps).Ok?
    ensures AlignedAsRequested(AlignH3Frames(durationSeconds, fps).value, durationSeconds, fps)
  {
    RawFramesAreClosest(durationSeconds, fps);
    AlignUpIsLeast(RawFrames(durationSeconds, fps));
  }

  /** A longer duration never compiles to fewer frames, nor is accepted when the shorter is not. */
  lemma AlignmentIsMonotone(shorter: real, longer: real, fps: real)
    requires shorter <= longer && fps > 0.0
    ensures AlignH3Frames(longer, fps).Ok? ==>
              AlignH3Frames(shorter, fps).Ok? &&
              AlignH3Frames(shorter, fps).value <= AlignH3Frames(longer, fps).value
  {
    assert shorter * fps <= longer * fps;
    RoundingIsMonotone(shorter * fps, longer * fps);
    AlignmentIsLeast(shorter, fps);
    AlignmentIsLeast(longer, fps);
  }

  lemma QuotientTimesDivisor(x: real, y: real)
    requires y != 0.0
    ensures (x / y) * y == x
  {
  }

  lemma AlignedIsFixed(n: int)
    requires n % 17 == 5
    ensures AlignUp(n) == n
  {
  }

  lemma AlignedDuration(n: int, fps: real)
    requires fps > 0.0 && n >= 5
    ensures RawFrames(n as real / fps, fps) == n
  {
    QuotientTimesDivisor(n as real, fps);
    RoundingKeepsIntegers(n);
  }

  /** Compiling the duration of an aligned clip gives the same clip length back. */
  lemma AlignmentIsIdempotent(durationSeconds: real, fps: real)
    requires fps > 0.0 && AlignH3Frames(durationSeconds, fps).Ok?
    ensures var n := AlignH3Frames(durationSeconds, fps).value;
            AlignH3Frames(n as real / fps, fps) == Ok(n)
  {
    var n := AlignH3Frames(durationSeconds, fps).value;
    AlignedDuration(n, fps);
    AlignedIsFixed(n);
  }

  /** With a documented overlap the sample is always 12 frames longer than what is kept and re-read. */
  lemma SampleIsTwelveLonger(durationSeconds: real, fps: real, overlap: int)
    requires AlignH3Frames(durationSeconds, fps).Ok? && overlap in OVERLAPS
    ensures var visible := AlignH3Frames(durationSeconds, fps).value;
            && SampleFrames(visible, overlap) == visible + overlap + 12
            && (SampleFrames(visible, overlap) <= MAX_SEGMENT_FRAMES <==> visible + overlap <= 500)
  {
    SampleOf(AlignH3Frames(durationSeconds, fps).value, overlap);
  }

  lemma SampleOf(visible: int, overlap: int)
    requires visible % 17 == 5 && overlap % 17 == 5
    ensures SampleFrames(visible, overlap) == visible + overlap + 12
  {
    assert (visible + overlap) % 17 == 10;
  }
}
