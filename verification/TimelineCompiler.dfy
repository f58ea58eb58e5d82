/**
 Laying the enabled segments out on one timeline: contiguous spans, source clips with
 their logical ranges, chained cache keys and the dense frame map.
 */
module TimelineCompiler {
  import opened Wrappers
  import opened Drafts
  import opened ContinuityChains
  import opened H3Frames
  import opened Retiming
  import opened CacheKeys
  import opened RunnableDrafts

  const MAX_TIMELINE_FRAMES := 100_000

  datatype FrameRef = FrameRef(clip: nat, frame: int)

  datatype Clip = Clip(file: string, trim: Trim, logicalStart: int, logicalEnd: int)

  datatype Compiled = Compiled(
    id: SegmentId, start: int, length: int, cacheKey: CacheKey, predecessorKey: Option<CacheKey>, clip: Option<nat>)

  datatype Timeline = Timeline(segments: seq<Compiled>, totalFrames: int, clips: seq<Clip>, frameMap: seq<FrameRef>)

  /** What a segment contributes to the layout: its aligned length and the trim of its source. */
  datatype Shape = Shape(length: int, footage: Option<Footage>)

  datatype Footage = Footage(file: string, trim: Trim)

  // --- Shapes ------------------------------------------------------------

  predicate HasSource(s: Segment) {
    s.media.References? && s.media.source.Some?
  }

  predicate ValidShape(s: Shape) {
    s.length > 0 && (s.footage.Some? ==> ValidTrim(s.footage.value.trim))
  }

  function ShapeOf(s: Segment, fps: real): (shape: Shape)
    requires Frames(s, fps).Ok?
    ensures ValidShape(shape)
  {
    Shape(
      Frames(s, fps).value,
      if HasSource(s) then Some(Footage(s.media.source.value.file, TrimOf(s, fps))) else None)
  }

  predicate AllAlign(enabled: seq<Segment>, fps: real) {
    forall i | 0 <= i < |enabled| :: Frames(enabled[i], fps).Ok?
  }

  function Shapes(enabled: seq<Segment>, fps: real): (shapes: seq<Shape>)
    requires AllAlign(enabled, fps)
    ensures |shapes| == |enabled|
    ensures forall i | 0 <= i < |enabled| :: shapes[i] == ShapeOf(enabled[i], fps)
    ensures forall i | 0 <= i < |enabled| :: ValidShape(shapes[i])
  {
    seq(|enabled|, i requires 0 <= i < |enabled| => ShapeOf(enabled[i], fps))
  }

  function Total(shapes: seq<Shape>): int {
    if shapes == [] then 0 else Total(shapes[..|shapes| - 1]) + shapes[|shapes| - 1].length
  }

  method Measure(enabled: seq<Segment>, fps: real) returns (r: Result<seq<Shape>, AlignError>)
    ensures r.Ok? <==> AllAlign(enabled, fps)
    ensures r.Ok? ==> r.value == Shapes(enabled, fps)
  {
    var shapes: seq<Shape> := [];
    for i := 0 to |enabled|
      invariant |shapes| == i
      invariant forall j | 0 <= j < i :: Frames(enabled[j], fps).Ok? && shapes[j] == ShapeOf(enabled[j], fps)
    {
      var frames := Frames(enabled[i], fps);
      if frames.Err? {
        return Err(frames.error);
      }
      shapes := shapes + [ShapeOf(enabled[i], fps)];
    }
    return Ok(shapes);
  }

  // --- What a compiled timeline is ---------------------------------------

  /** The spans partition [0, total) in order. */
  ghost predicate Partitions(segments: seq<Compiled>, total: int) {
    && (if segments == [] then total == 0 else segments[0].start == 0)
    && (forall i | 0 <= i < |segments| :: segments[i].length > 0)
    && (forall i, j | 0 <= i && j == i + 1 && j < |segments| :: segments[j].start == segments[i].start + segments[i].length)
    && (segments != [] ==> segments[|segments| - 1].start + segments[|segments| - 1].length == total)
  }

  /** A segment has its aligned length, and a clip with its trim over exactly its own span if it has a source. */
  predicate Fits(shape: Shape, out: Compiled, clips: seq<Clip>) {
    && out.length == shape.length
    && (out.clip.Some? <==> shape.footage.Some?)
    && (out.clip.Some? ==>
          && out.clip.value < |clips|
          && clips[out.clip.value] ==
             Clip(shape.footage.value.file, shape.footage.value.trim, out.start, out.start + out.length))
  }

  /** The clips are numbered in segment order, one per segment with a source. */
  ghost predicate ClipsNumbered(segments: seq<Compiled>, clips: seq<Clip>) {
    && (forall n: nat | n < |clips| :: exists i :: 0 <= i < |segments| && segments[i].clip == Some(n))
    && (forall i, j | 0 <= i < j < |segments| && segments[i].clip.Some? && segments[j].clip.Some? ::
          segments[i].clip.value < segments[j].clip.value)
  }

  /** The first `n` segments laid out up to the cursor. */
  ghost predicate Laid(shapes: seq<Shape>, n: nat, segments: seq<Compiled>, clips: seq<Clip>, cursor: int)
    requires n <= |shapes|
  {
    && |segments| == n
    && Partitions(segments, cursor)
    && (forall i | 0 <= i < n :: Fits(shapes[i], segments[i], clips))
    && ClipsNumbered(segments, clips)
  }

  /** Each of the first `n` segments carries its chained key and its predecessor's. */
  predicate Keyed(c: Context, enabled: seq<Segment>, n: nat, segments: seq<Compiled>)
    requires n <= |enabled| && n <= |segments|
  {
    forall i | 0 <= i < n :: HasKey(c, enabled, i, segments[i])
  }

  predicate HasKey(c: Context, enabled: seq<Segment>, i: nat, out: Compiled)
    requires i < |enabled|
  {
    && out.id == enabled[i].id
    && out.cacheKey == KeyAt(c, enabled, i)
    && out.predecessorKey == (if Linked(enabled, i) then Some(KeyAt(c, enabled, i - 1)) else None)
  }

  /** What frame `k` of a segment shows; a segment without a source shows a placeholder. */
  function EntryAt(shape: Shape, clip: Option<nat>, k: int): FrameRef
    requires 0 <= k < shape.length && ValidShape(shape)
  {
    if clip.Some? && shape.footage.Some? then
      var trim := shape.footage.value.trim;
      FrameRef(clip.value, FrameAt(trim.start, trim.end - trim.start, shape.length, k))
    else FrameRef(0, 0)
  }

  function Block(shape: Shape, clip: Option<nat>): (block: seq<FrameRef>)
    requires ValidShape(shape)
    ensures |block| == shape.length
    ensures forall k | 0 <= k < shape.length :: block[k] == EntryAt(shape, clip, k)
  {
    seq(shape.length, k requires 0 <= k < shape.length => EntryAt(shape, clip, k))
  }

  predicate ShownAt(shape: Shape, out: Compiled, frameMap: seq<FrameRef>) {
    && ValidShape(shape)
    && 0 <= out.start && out.start + shape.length <= |frameMap|
    && frameMap[out.start..out.start + shape.length] == Block(shape, out.clip)
  }

  /** Each of the first `n` segments is shown over its own span. */
  predicate Mapped(shapes: seq<Shape>, n: nat, segments: seq<Compiled>, frameMap: seq<FrameRef>)
    requires n <= |shapes| && n <= |segments|
  {
    forall i | 0 <= i < n :: ShownAt(shapes[i], segments[i], frameMap)
  }

  ghost predicate IsLayout(shapes: seq<Shape>, t: Timeline) {
    && Laid(shapes, |shapes|, t.segments, t.clips, t.totalFrames)
    && t.totalFrames <= MAX_TIMELINE_FRAMES
    && (if t.clips == [] then t.frameMap == []
        else |t.frameMap| == t.totalFrames && Mapped(shapes, |shapes|, t.segments, t.frameMap))
  }

  ghost predicate IsTimeline(c: Context, enabled: seq<Segment>, t: Timeline) {
    && AllAlign(enabled, c.render.fps)
    && IsLayout(Shapes(enabled, c.render.fps), t)
    && Keyed(c, enabled, |enabled|, t.segments)
  }

  // --- Laying out --------------------------------------------------------

  lemma PartitionExtends(segments: seq<Compiled>, cursor: int, out: Compiled)
    requires Partitions(segments, cursor) && out.start == cursor && out.length > 0
    ensures Partitions(segments + [out], cursor + out.length)
  {
  }

  lemma NumberingExtends(segments: seq<Compiled>, clips: seq<Clip>, out: Compiled, added: seq<Clip>)
    requires ClipsNumbered(segments, clips)
    requires forall i | 0 <= i < |segments| && segments[i].clip.Some? :: segments[i].clip.value < |clips|
    requires (out.clip == None && added == []) || (out.clip == Some(|clips|) && |added| == 1)
    ensures ClipsNumbered(segments + [out], clips + added)
  {
    var now := segments + [out];
    assert now[|segments|] == out;
    forall n: nat | n < |clips + added| ensures exists i :: 0 <= i < |now| && now[i].clip == Some(n) {
      if n < |clips| {
        var i :| 0 <= i < |segments| && segments[i].clip == Some(n);
        assert now[i].clip == Some(n);
      } else {
        assert now[|segments|].clip == Some(n);
      }
    }
  }

  lemma LayingExtends(
    shapes: seq<Shape>, n: nat, segments: seq<Compiled>, clips: seq<Clip>, cursor: int, out: Compiled, added: seq<Clip>)
    requires n < |shapes| && Laid(shapes, n, segments, clips, cursor) && shapes[n].length > 0
    requires out.start == cursor && Fits(shapes[n], out, clips + added)
    requires (out.clip == None && added == []) || (out.clip == Some(|clips|) && |added| == 1)
    ensures Laid(shapes, n + 1, segments + [out], clips + added, cursor + out.length)
  {
    var now := segments + [out];
    PartitionExtends(segments, cursor, out);
    assert forall i | 0 <= i < n :: Fits(shapes[i], segments[i], clips);
    NumberingExtends(segments, clips, out, added);
    forall i | 0 <= i < n + 1 ensures Fits(shapes[i], now[i], clips + added) {
      if i < n {
        assert now[i] == segments[i];
      }
    }
  }

  /** The key of a segment, found by the predecessor map. */
  method SegmentKey(
    c: Context, enabled: seq<Segment>, i: nat, predecessors: map<SegmentId, Segment>, previousKey: Option<CacheKey>)
    returns (key: CacheKey, predecessorKey: Option<CacheKey>)
    requires UniqueIds(enabled) && IsPredecessorMap(enabled, predecessors) && i < |enabled|
    requires previousKey == if i == 0 then None else Some(KeyAt(c, enabled, i - 1))
    ensures key == KeyAt(c, enabled, i)
    ensures predecessorKey == if Linked(enabled, i) then Some(KeyAt(c, enabled, i - 1)) else None
  {
    var segment := enabled[i];
    predecessorKey := if segment.id in predecessors && previousKey.Some? then previousKey else None;
    var successor: Option<Successor> := None;
    if i + 1 < |enabled| {
      var next := enabled[i + 1];
      if next.id in predecessors && predecessors[next.id].id == segment.id {
        successor := Some(Successor(next, FamilyOf(next), Of(c.models.diffusion, FamilyOf(next))));
      }
    }
    key := UnifiedCacheKey(c, segment, predecessorKey, successor);
  }

  /** The clip and the mapping of a segment with a source; nothing otherwise. */
  method SourceEntry(shape: Shape, cursor: int, nextClip: nat)
    returns (clip: Option<nat>, clips: seq<Clip>, mapping: Option<seq<FrameRef>>)
    requires ValidShape(shape)
    ensures (clip == None && clips == []) || (clip == Some(nextClip) && |clips| == 1)
    ensures clip.Some? <==> shape.footage.Some?
    ensures clip.Some? ==>
              clips[0] == Clip(shape.footage.value.file, shape.footage.value.trim, cursor, cursor + shape.length)
    ensures mapping == if clip.Some? then Some(Block(shape, clip)) else None
  {
    match shape.footage
    case None =>
      clip, clips, mapping := None, [], None;
    case Some(footage) =>
      clip := Some(nextClip);
      clips := [Clip(footage.file, footage.trim, cursor, cursor + shape.length)];
      var indexes := SourceMapping(footage.trim, shape.length);
      mapping := Some(seq(shape.length, k requires 0 <= k < shape.length => FrameRef(nextClip, indexes[k])));
      assert mapping.value == Block(shape, clip);
  }

  ghost predicate MappingsMatch(shapes: seq<Shape>, n: nat, segments: seq<Compiled>, mappings: seq<Option<seq<FrameRef>>>)
    requires n <= |shapes|
  {
    && |segments| == |mappings| == n
    && forall i | 0 <= i < n :: MappingMatches(shapes[i], segments[i].clip, mappings[i])
  }

  predicate MappingMatches(shape: Shape, clip: Option<nat>, mapping: Option<seq<FrameRef>>) {
    ValidShape(shape) && mapping == if clip.Some? then Some(Block(shape, clip)) else None
  }

  /** Compile one segment behind the cursor. */
  method CompileSegment(
    c: Context, enabled: seq<Segment>, i: nat, predecessors: map<SegmentId, Segment>, previousKey: Option<CacheKey>,
    shape: Shape, cursor: int, clips: seq<Clip>)
    returns (out: Compiled, added: seq<Clip>, mapping: Option<seq<FrameRef>>)
    requires UniqueIds(enabled) && IsPredecessorMap(enabled, predecessors) && i < |enabled| && ValidShape(shape)
    requires previousKey == if i == 0 then None else Some(KeyAt(c, enabled, i - 1))
    ensures HasKey(c, enabled, i, out)
    ensures out.start == cursor && Fits(shape, out, clips + added)
    ensures (out.clip == None && added == []) || (out.clip == Some(|clips|) && |added| == 1)
    ensures MappingMatches(shape, out.clip, mapping)
  {
    var key, predecessorKey := SegmentKey(c, enabled, i, predecessors, previousKey);
    var clip;
    clip, added, mapping := SourceEntry(shape, cursor, |clips|);
    out := Compiled(enabled[i].id, cursor, shape.length, key, predecessorKey, clip);
  }

  lemma KeyedExtends(c: Context, enabled: seq<Segment>, n: nat, segments: seq<Compiled>, out: Compiled)
    requires n < |enabled| && |segments| == n && Keyed(c, enabled, n, segments) && HasKey(c, enabled, n, out)
    ensures Keyed(c, enabled, n + 1, segments + [out])
  {
  }

  lemma MappingsExtend(
    shapes: seq<Shape>, n: nat, segments: seq<Compiled>, mappings: seq<Option<seq<FrameRef>>>,
    out: Compiled, mapping: Option<seq<FrameRef>>)
    requires n < |shapes| && MappingsMatch(shapes, n, segments, mappings) && MappingMatches(shapes[n], out.clip, mapping)
    ensures MappingsMatch(shapes, n + 1, segments + [out], mappings + [mapping])
  {
  }

  /** What the layout loop has made of the first `n` segments. */
  ghost predicate LaidOut(
    c: Context, enabled: seq<Segment>, shapes: seq<Shape>, n: nat,
    segments: seq<Compiled>, clips: seq<Clip>, mappings: seq<Option<seq<FrameRef>>>, cursor: int)
    requires n <= |shapes| == |enabled|
  {
    var laid := Laid(shapes, n, segments, clips, cursor);
    var keyed := |segments| == n && Keyed(c, enabled, n, segments);
    var mapped := MappingsMatch(shapes, n, segments, mappings);
    laid && keyed && mapped
  }

  lemma LaidOutExtends(
    c: Context, enabled: seq<Segment>, shapes: seq<Shape>, n: nat,
    segments: seq<Compiled>, clips: seq<Clip>, mappings: seq<Option<seq<FrameRef>>>, cursor: int,
    out: Compiled, added: seq<Clip>, mapping: Option<seq<FrameRef>>)
    requires n < |shapes| == |enabled| && LaidOut(c, enabled, shapes, n, segments, clips, mappings, cursor)
    requires shapes[n].length > 0 && out.start == cursor && Fits(shapes[n], out, clips + added)
    requires (out.clip == None && added == []) || (out.clip == Some(|clips|) && |added| == 1)
    requires HasKey(c, enabled, n, out) && MappingMatches(shapes[n], out.clip, mapping)
    ensures LaidOut(
              c, enabled, shapes, n + 1, segments + [out], clips + added, mappings + [mapping], cursor + out.length)
  {
    LayingExtends(shapes, n, segments, clips, cursor, out, added);
    KeyedExtends(c, enabled, n, segments, out);
    MappingsExtend(shapes, n, segments, mappings, out, mapping);
  }

  method LayOut(c: Context, enabled: seq<Segment>, predecessors: map<SegmentId, Segment>, shapes: seq<Shape>)
    returns (segments: seq<Compiled>, clips: seq<Clip>, mappings: seq<Option<seq<FrameRef>>>, cursor: int)
    requires UniqueIds(enabled) && IsPredecessorMap(enabled, predecessors)
    requires |shapes| == |enabled| && forall i | 0 <= i < |shapes| :: ValidShape(shapes[i])
    ensures Laid(shapes, |shapes|, segments, clips, cursor)
    ensures Keyed(c, enabled, |enabled|, segments)
    ensures MappingsMatch(shapes, |shapes|, segments, mappings)
  {
    segments, clips, mappings, cursor := [], [], [], 0;
    var previousKey: Option<CacheKey> := None;
    for i := 0 to |enabled|
      invariant LaidOut(c, enabled, shapes, i, segments, clips, mappings, cursor)
      invariant previousKey == if i == 0 then None else Some(KeyAt(c, enabled, i - 1))
    {
      var out, added, mapping := CompileSegment(c, enabled, i, predecessors, previousKey, shapes[i], cursor, clips);
      LaidOutExtends(c, enabled, shapes, i, segments, clips, mappings, cursor, out, added, mapping);
      segments, clips, mappings := segments + [out], clips + added, mappings + [mapping];
      previousKey := Some(out.cacheKey);
      cursor := cursor + out.length;
    }
  }

  // --- The dense map -----------------------------------------------------

  lemma MappedExtends(
    shapes: seq<Shape>, n: nat, segments: seq<Compiled>, frameMap: seq<FrameRef>, block: seq<FrameRef>)
    requires n < |shapes| && n < |segments| && Mapped(shapes, n, segments, frameMap)
    requires ValidShape(shapes[n]) && segments[n].start == |frameMap| && block == Block(shapes[n], segments[n].clip)
    ensures Mapped(shapes, n + 1, segments, frameMap + block)
  {
    var now := frameMap + block;
    forall i | 0 <= i < n + 1 ensures ShownAt(shapes[i], segments[i], now) {
      if i < n {
        var start, end := segments[i].start, segments[i].start + shapes[i].length;
        assert ShownAt(shapes[i], segments[i], frameMap);
        assert now[start..end] == frameMap[start..end];
      }
    }
  }

  /** Concatenate the mappings, a placeholder run for each segment without one. */
  method DenseMap(
    shapes: seq<Shape>, ghost segments: seq<Compiled>, ghost clips: seq<Clip>, ghost total: int,
    mappings: seq<Option<seq<FrameRef>>>)
    returns (frameMap: seq<FrameRef>)
    requires shapes != [] && Laid(shapes, |shapes|, segments, clips, total)
    requires MappingsMatch(shapes, |shapes|, segments, mappings)
    ensures |frameMap| == total && Mapped(shapes, |shapes|, segments, frameMap)
  {
    frameMap := [];
    for i := 0 to |shapes|
      invariant Mapped(shapes, i, segments, frameMap)
      invariant |frameMap| == if i < |shapes| then segments[i].start else total
    {
      assert Fits(shapes[i], segments[i], clips) && MappingMatches(shapes[i], segments[i].clip, mappings[i]);
      var placeholder := seq(shapes[i].length, k requires 0 <= k < shapes[i].length => FrameRef(0, 0));
      var block := if mappings[i].Some? then mappings[i].value else placeholder;
      assert block == Block(shapes[i], segments[i].clip);
      MappedExtends(shapes, i, segments, frameMap, block);
      frameMap := frameMap + block;
    }
  }

  lemma {:induction false} LaidTotal(
    shapes: seq<Shape>, n: nat, segments: seq<Compiled>, clips: seq<Clip>, total: int)
    requires n <= |shapes| && Laid(shapes, |shapes|, segments, clips, total)
    ensures Total(shapes[..n]) == if n < |shapes| then segments[n].start else total
  {
    if n > 0 {
      LaidTotal(shapes, n - 1, segments, clips, total);
      assert shapes[..n][..n - 1] == shapes[..n - 1];
      assert Fits(shapes[n - 1], segments[n - 1], clips);
    }
  }

  function ContextOf(draft: Draft, models: Models): Context {
    Context(draft.render, draft.sampling, models)
  }

  ghost predicate FitsTimeline(enabled: seq<Segment>, fps: real) {
    AllAlign(enabled, fps) && Total(Shapes(enabled, fps)) <= MAX_TIMELINE_FRAMES
  }

  /** The layout of measured segments, unless it is too long. */
  method Assemble(c: Context, enabled: seq<Segment>, predecessors: map<SegmentId, Segment>, shapes: seq<Shape>)
    returns (t: Option<Timeline>)
    requires UniqueIds(enabled) && IsPredecessorMap(enabled, predecessors) && enabled != []
    requires |shapes| == |enabled| && forall i | 0 <= i < |shapes| :: ValidShape(shapes[i])
    ensures t.Some? <==> Total(shapes) <= MAX_TIMELINE_FRAMES
    ensures t.Some? ==> IsLayout(shapes, t.value) && Keyed(c, enabled, |enabled|, t.value.segments)
  {
    var segments, clips, mappings, total := LayOut(c, enabled, predecessors, shapes);
    LaidTotal(shapes, |shapes|, segments, clips, total);
    assert shapes[..|shapes|] == shapes;
    if total > MAX_TIMELINE_FRAMES {
      return None;
    }
    var frameMap: seq<FrameRef> := [];
    if clips != [] {
      frameMap := DenseMap(shapes, segments, clips, total, mappings);
    }
    return Some(Timeline(segments, total, clips, frameMap));
  }

  /**
   Compiles exactly the runnable drafts with something selected whose segments all align
   and fit the limit, to a timeline whose dense map covers every frame.
   */
  method BuildUnifiedTimeline(draft: Draft, models: Models, selection: Option<seq<SegmentId>>)
    returns (r: Result<Timeline, DraftError>)
    requires UniqueIds(draft.segments)
    ensures r.Ok? <==>
              && Runnable(draft, selection) && selection != Some([])
              && FitsTimeline(Enabled(draft.segments), draft.render.fps)
    ensures r.Ok? ==> IsTimeline(ContextOf(draft, models), Enabled(draft.segments), r.value)
  {
    var validated := ValidateUnifiedRunnable(draft, selection);
    if validated.Err? {
      return Err(validated.error);
    }
    if selection == Some([]) {
      return Err(EmptySelection);
    }
    var enabled := validated.value;
    var predecessors := UnifiedContinuityPredecessors(draft.segments);
    EnabledKeepsUnique(draft.segments);
    var shapes := Measure(enabled, draft.render.fps);
    if shapes.Err? {
      return Err(FramesRejected(shapes.error));
    }
    var t := Assemble(ContextOf(draft, models), enabled, predecessors, shapes.value);
    return if t.Some? then Ok(t.value) else Err(TimelineTooLong);
  }

  // --- What every timeline satisfies -------------------------------------

  /** Every frame of the timeline belongs to a segment. */
  lemma {:induction false} EveryFrameHasASegment(segments: seq<Compiled>, total: int, upTo: nat, p: int)
    returns (i: nat)
    requires Partitions(segments, total) && upTo < |segments|
    requires 0 <= p < segments[upTo].start + segments[upTo].length
    ensures i <= upTo && segments[i].start <= p < segments[i].start + segments[i].length
    decreases upTo
  {
    if upTo == 0 || segments[upTo].start <= p {
      i := upTo;
    } else {
      i := EveryFrameHasASegment(segments, total, upTo - 1, p);
    }
  }

  lemma {:induction false} SpansAreDisjoint(segments: seq<Compiled>, total: int, i: nat, j: nat)
    requires Partitions(segments, total) && i < j < |segments|
    ensures segments[i].start + segments[i].length <= segments[j].start
    decreases j
  {
    assert segments[j].start == segments[j - 1].start + segments[j - 1].length;
    if i < j - 1 {
      SpansAreDisjoint(segments, total, i, j - 1);
    }
  }

  /** Frame `k` of segment `i` shows what that segment's own trim says. */
  lemma MapShowsSegment(shapes: seq<Shape>, t: Timeline, i: nat, k: nat)
    requires IsLayout(shapes, t) && t.clips != [] && i < |shapes| && k < shapes[i].length && ValidShape(shapes[i])
    ensures 0 <= t.segments[i].start && t.segments[i].start + k < |t.frameMap|
    ensures t.frameMap[t.segments[i].start + k] == EntryAt(shapes[i], t.segments[i].clip, k)
  {
    assert ShownAt(shapes[i], t.segments[i], t.frameMap);
    ShownFrame(shapes[i], t.segments[i], t.frameMap, k);
  }

  lemma ShownFrame(shape: Shape, out: Compiled, frameMap: seq<FrameRef>, k: nat)
    requires ShownAt(shape, out, frameMap) && k < shape.length
    ensures frameMap[out.start + k] == EntryAt(shape, out.clip, k)
  {
    assert frameMap[out.start..out.start + shape.length][k] == frameMap[out.start + k];
  }

  lemma ShownInClip(shape: Shape, out: Compiled, clips: seq<Clip>, k: nat)
    requires ValidShape(shape) && Fits(shape, out, clips) && k < shape.length
    requires clips != [] && 0 < clips[0].trim.full
    ensures EntryAt(shape, out.clip, k).clip < |clips|
    ensures 0 <= EntryAt(shape, out.clip, k).frame < clips[EntryAt(shape, out.clip, k).clip].trim.full
  {
    if out.clip.Some? {
      var trim := shape.footage.value.trim;
      FrameStaysInTrim(trim.start, trim.end - trim.start, shape.length, k);
    }
  }

  lemma FirstClipIsReal(shapes: seq<Shape>, t: Timeline)
    requires IsLayout(shapes, t) && t.clips != [] && forall i | 0 <= i < |shapes| :: ValidShape(shapes[i])
    ensures 0 < t.clips[0].trim.full
  {
    var i :| 0 <= i < |t.segments| && t.segments[i].clip == Some(0);
    assert Fits(shapes[i], t.segments[i], t.clips);
  }

  /** Every entry of the map names an existing clip and a frame inside that clip's file. */
  lemma MapStaysInClips(shapes: seq<Shape>, t: Timeline, p: nat)
    requires IsLayout(shapes, t) && p < |t.frameMap| && forall i | 0 <= i < |shapes| :: ValidShape(shapes[i])
    ensures t.frameMap[p].clip < |t.clips|
    ensures 0 <= t.frameMap[p].frame < t.clips[t.frameMap[p].clip].trim.full
  {
    var i := EveryFrameHasASegment(t.segments, t.totalFrames, |t.segments| - 1, p);
    var k: nat := p - t.segments[i].start;
    assert Fits(shapes[i], t.segments[i], t.clips);
    MapShowsSegment(shapes, t, i, k);
    FirstClipIsReal(shapes, t);
    ShownInClip(shapes[i], t.segments[i], t.clips, k);
  }

  /**
   Source audio is never stretched: throughout a selected segment that passes its source
   audio through, the map is the exact shift of its trim.
   */
  lemma SourceAudioIsShifted(draft: Draft, models: Models, selection: Option<seq<SegmentId>>, t: Timeline, i: nat, k: nat)
    requires UniqueIds(draft.segments) && Runnable(draft, selection)
    requires IsTimeline(ContextOf(draft, models), Enabled(draft.segments), t)
    requires i < |Enabled(draft.segments)| && k < t.segments[i].length
    requires Enabled(draft.segments)[i].audioMode.SourceAudio?
    requires selection.Some? ==> Enabled(draft.segments)[i].id in selection.value
    ensures HasSource(Enabled(draft.segments)[i]) && t.segments[i].clip.Some?
    ensures 0 <= t.segments[i].start && t.segments[i].start + k < |t.frameMap|
    ensures t.frameMap[t.segments[i].start + k] ==
            FrameRef(t.segments[i].clip.value, TrimOf(Enabled(draft.segments)[i], draft.render.fps).start + k)
  {
    var enabled := Enabled(draft.segments);
    var shapes := Shapes(enabled, draft.render.fps);
    SelectedIsChecked(draft, selection, i);
    SourceAudioShape(enabled[i], draft.render.fps);
    assert Fits(shapes[i], t.segments[i], t.clips);
    MapShowsSegment(shapes, t, i, k);
    ShiftedShape(shapes[i], t.segments[i].clip.value, k);
  }

  /** A checked source-audio segment has a trim exactly as long as its output. */
  lemma SourceAudioShape(s: Segment, fps: real)
    requires SourceAudioFits(s, fps) && s.audioMode.SourceAudio?
    ensures HasSource(s) && Frames(s, fps).Ok?
    ensures var shape := ShapeOf(s, fps);
            && shape.footage.Some? && shape.footage.value.trim == TrimOf(s, fps)
            && shape.length == shape.footage.value.trim.end - shape.footage.value.trim.start
  {
  }

  lemma ShiftedShape(shape: Shape, clip: nat, k: nat)
    requires ValidShape(shape) && shape.footage.Some? && k < shape.length
    requires shape.length == shape.footage.value.trim.end - shape.footage.value.trim.start
    ensures EntryAt(shape, Some(clip), k) == FrameRef(clip, shape.footage.value.trim.start + k)
  {
    EqualLengthsShift(shape.footage.value.trim.start, shape.length, k);
  }

  lemma SelectedIsChecked(draft: Draft, selection: Option<seq<SegmentId>>, i: nat)
    requires UniqueIds(draft.segments) && Runnable(draft, selection) && i < |Enabled(draft.segments)|
    requires selection.Some? ==> Enabled(draft.segments)[i].id in selection.value
    ensures SourceAudioFits(Enabled(draft.segments)[i], draft.render.fps)
  {
    var enabled := Enabled(draft.segments);
    EnabledKeepsUnique(draft.segments);
    var predecessors, execution :|
      && IsPredecessorMap(enabled, predecessors)
      && IsExecution(enabled, selection, execution)
      && RunnableExecution(draft, predecessors, execution);
    SelectedRuns(enabled, selection, execution, i);
    assert RunnableSegment(enabled[i], predecessors, draft.render.fps);
  }

  lemma SelectedRuns(enabled: seq<Segment>, selection: Option<seq<SegmentId>>, execution: seq<Segment>, i: nat)
    requires UniqueIds(enabled) && IsExecution(enabled, selection, execution) && i < |enabled|
    requires selection.Some? ==> enabled[i].id in selection.value
    ensures enabled[i] in execution
  {
    if selection.Some? {
      var j :| 0 <= j < |selection.value| && selection.value[j] == enabled[i].id;
      assert execution[j] in execution && enabled[i] in enabled;
    }
  }

  /** The source file of the segment, cut as the segment asks. */
  ghost predicate CutFor(s: Segment, fps: real, file: string, trim: Trim)
    requires HasSource(s)
  {
    && file == s.media.source.value.file
    && CutAsRequested(trim, s.media.source.value.duration, s.media.startSeconds, s.media.lengthSeconds, fps)
  }

  lemma ShapeAsDrafted(s: Segment, fps: real)
    requires Frames(s, fps).Ok?
    ensures AlignedAsRequested(ShapeOf(s, fps).length, s.durationSeconds, fps)
    ensures ShapeOf(s, fps).footage != None <==> s.media.References? && s.media.source != None
    ensures HasSource(s) ==> CutFor(s, fps, ShapeOf(s, fps).footage.value.file, ShapeOf(s, fps).footage.value.trim)
  {
    AlignmentIsAsRequested(s.durationSeconds, fps);
    if HasSource(s) {
      TrimIsClosest(s.media.source.value.duration, s.media.startSeconds, s.media.lengthSeconds, fps);
    }
  }

  /** The clip of a compiled segment lies over exactly its span. */
  predicate Covers(clip: Clip, out: Compiled) {
    clip.logicalStart == out.start && clip.logicalEnd == out.start + out.length
  }

  /**
   A compiled segment is what the draft asks for: its id, its aligned length, a clip exactly
   if it has a source video, that clip cut as requested and placed over the segment's span.
   */
  lemma SegmentIsAsDrafted(c: Context, enabled: seq<Segment>, t: Timeline, i: nat)
    requires IsTimeline(c, enabled, t) && i < |enabled|
    ensures i < |t.segments| && t.segments[i].id == enabled[i].id
    ensures AlignedAsRequested(t.segments[i].length, enabled[i].durationSeconds, c.render.fps)
    ensures t.segments[i].clip != None <==> HasSource(enabled[i])
    ensures t.segments[i].clip != None ==>
              && t.segments[i].clip.value < |t.clips|
              && Covers(t.clips[t.segments[i].clip.value], t.segments[i])
              && CutFor(
                   enabled[i], c.render.fps, t.clips[t.segments[i].clip.value].file, t.clips[t.segments[i].clip.value].trim)
  {
    var shape, out := ShapeOf(enabled[i], c.render.fps), t.segments[i];
    assert HasKey(c, enabled, i, out);
    assert Fits(Shapes(enabled, c.render.fps)[i], out, t.clips);
    assert Fits(shape, out, t.clips);
    ShapeAsDrafted(enabled[i], c.render.fps);
  }
}
