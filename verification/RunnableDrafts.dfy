/** The checks a draft passes before it is compiled, in the order they are made. */
module RunnableDrafts {
  import opened Wrappers
  import opened Drafts
  import opened ContinuityChains
  import opened H3Frames
  import opened Retiming
  import opened ReferenceSlots

  datatype DraftError =
    | NothingEnabled | UnknownSelection | BlankPrompt | UnsupportedFrameRate
    | FramesRejected(align: AlignError) | PredecessorTooShort | SampleTooLong
    | MissingReferences | SilentSourceReference | SparseSlots | UnknownReference
    | SourceAudioWithoutSource | SourceAudioSilent | SourceAudioStretched | EmptySelection | TimelineTooLong

  function TrimOf(s: Segment, fps: real): Trim
    requires s.media.References? && s.media.source.Some?
  {
    SourceTrim(s.media.source.value.duration, s.media.startSeconds, s.media.lengthSeconds, fps)
  }

  function Frames(s: Segment, fps: real): Result<int, AlignError> {
    AlignH3Frames(s.durationSeconds, fps)
  }

  // --- What the checks mean ----------------------------------------------

  /** Enough visible predecessor frames to re-read, and a sample within the limit. */
  predicate ContinuityFits(predecessor: Segment, s: Segment, fps: real) {
    && Frames(predecessor, fps).Ok? && Frames(s, fps).Ok?
    && s.continuity.overlapFrames <= Frames(predecessor, fps).value
    && SampleFrames(Frames(s, fps).value, s.continuity.overlapFrames) <= MAX_SEGMENT_FRAMES
  }

  predicate HasReferences(s: Segment) {
    s.media.References? ==>
      s.media.source.Some? || s.media.images != [] || s.media.audios != [] || s.media.videos != []
  }

  predicate ReferenceAudioExists(s: Segment) {
    s.media.References? && s.media.audioAsReference ==> s.media.source.Some? && s.media.source.value.hasAudio
  }

  predicate TagsAvailable(s: Segment) {
    forall t | t in s.prompt.tags :: t.number in AvailableSlots(s, t.kind)
  }

  /** Source audio is passed through, so the trim must be exactly as long as the output. */
  predicate SourceAudioFits(s: Segment, fps: real) {
    s.audioMode.SourceAudio? ==>
      && s.media.References? && s.media.source.Some? && s.media.source.value.hasAudio
      && Frames(s, fps) == Ok(TrimOf(s, fps).end - TrimOf(s, fps).start)
  }

  ghost predicate RunnableSegment(s: Segment, predecessors: map<SegmentId, Segment>, fps: real) {
    && !s.prompt.blank
    && (s.id in predecessors ==> ContinuityFits(predecessors[s.id], s, fps))
    && HasReferences(s) && ReferenceAudioExists(s)
    && DenseReferences(s) && TagsAvailable(s)
    && SourceAudioFits(s, fps)
  }

  /** A referencing segment has references exactly when it is compiled from at least one input of some kind. */
  lemma ReferencesAreInputs(s: Segment)
    requires s.media.References?
    ensures HasReferences(s) <==> exists kind :: CompiledInputs(s, kind) != []
  {
    forall kind ensures |CompiledInputs(s, kind)| > 0 ==> HasReferences(s) {
      InputsExactly(s, kind);
    }
    InputsExactly(s, Picture);
    InputsExactly(s, Audio);
    InputsExactly(s, Video);
    assert HasReferences(s) ==>
        |CompiledInputs(s, Picture)| > 0 || |CompiledInputs(s, Audio)| > 0 || |CompiledInputs(s, Video)| > 0;
  }

  /** The tags of a segment are available exactly when each is numbered within the inputs of its kind. */
  lemma TagsAreInputs(s: Segment)
    requires DenseReferences(s)
    ensures TagsAvailable(s) <==> forall t | t in s.prompt.tags :: 1 <= t.number <= |CompiledInputs(s, t.kind)|
  {
    forall t | t in s.prompt.tags
      ensures t.number in AvailableSlots(s, t.kind) <==> 1 <= t.number <= |CompiledInputs(s, t.kind)|
    {
      TagsAreDense(s, t.kind, t.number);
    }
  }

  /**
   With a documented overlap a continuation fits exactly when both segments align, the
   predecessor is at least as long as the overlap, and at most 500 frames are kept and
   re-read together.
   */
  lemma ContinuityFitsExactly(predecessor: Segment, s: Segment, fps: real)
    requires s.continuity.overlapFrames in OVERLAPS
    ensures ContinuityFits(predecessor, s, fps) <==>
              && AlignH3Frames(predecessor.durationSeconds, fps).Ok? && AlignH3Frames(s.durationSeconds, fps).Ok?
              && AlignH3Frames(predecessor.durationSeconds, fps).value >= s.continuity.overlapFrames
              && AlignH3Frames(s.durationSeconds, fps).value + s.continuity.overlapFrames <= 500
  {
    if Frames(s, fps).Ok? { SampleIsTwelveLonger(s.durationSeconds, fps, s.continuity.overlapFrames); }
  }

  /** A selected continuation re-reads its overlap and samples exactly 12 frames beyond it. */
  lemma RunnableContinuation(s: Segment, predecessors: map<SegmentId, Segment>, fps: real)
    requires RunnableSegment(s, predecessors, fps) && s.id in predecessors && s.continuity.overlapFrames in OVERLAPS
    ensures var visible := Frames(s, fps).value;
            && SampleFrames(visible, s.continuity.overlapFrames) == visible + s.continuity.overlapFrames + 12 <= 512
            && s.continuity.overlapFrames <= Frames(predecessors[s.id], fps).value
  {
    SampleIsTwelveLonger(s.durationSeconds, fps, s.continuity.overlapFrames);
  }

  // --- The checks --------------------------------------------------------

  function ContinuityError(s: Segment, predecessors: map<SegmentId, Segment>, fps: real): (e: Option<DraftError>)
    ensures e.None? <==> (s.id in predecessors ==> ContinuityFits(predecessors[s.id], s, fps))
  {
    if s.id !in predecessors then None else
      match Frames(predecessors[s.id], fps)
      case Err(e) => Some(FramesRejected(e))
      case Ok(before) =>
        if before < s.continuity.overlapFrames then Some(PredecessorTooShort) else
          match Frames(s, fps)
          case Err(e) => Some(FramesRejected(e))
          case Ok(visible) =>
            if SampleFrames(visible, s.continuity.overlapFrames) > MAX_SEGMENT_FRAMES then Some(SampleTooLong) else None
  }

  function ReferenceError(s: Segment): (e: Option<DraftError>)
    ensures e.None? <==> DenseReferences(s) && TagsAvailable(s)
  {
    if !DenseReferences(s) then Some(SparseSlots)
    else if !TagsAvailable(s) then Some(UnknownReference)
    else None
  }

  predicate SourceAudioHasSource(s: Segment) {
    s.audioMode.SourceAudio? ==> s.media.References? && s.media.source.Some?
  }

  function SourceAudioError(s: Segment, fps: real): (e: Option<DraftError>)
    requires SourceAudioHasSource(s)
    ensures e.None? <==> SourceAudioFits(s, fps)
  {
    if !s.audioMode.SourceAudio? then None
    else if !s.media.source.value.hasAudio then Some(SourceAudioSilent)
    else
      match Frames(s, fps)
      case Err(e) => Some(FramesRejected(e))
      case Ok(output) =>
        var trim := TrimOf(s, fps);
        if trim.end - trim.start != output then Some(SourceAudioStretched) else None
  }

  function Find(enabled: seq<Segment>, id: SegmentId): (s: Option<Segment>)
    ensures s.None? <==> forall e | e in enabled :: e.id != id
    ensures s.Some? ==> s.value in enabled && s.value.id == id
  {
    if enabled == [] then None
    else if enabled[0].id == id then Some(enabled[0])
    else Find(enabled[1..], id)
  }

  /** The segments to run: all enabled ones, or the named ones in the order named. */
  ghost predicate IsExecution(enabled: seq<Segment>, selection: Option<seq<SegmentId>>, execution: seq<Segment>) {
    match selection
    case None => execution == enabled
    case Some(ids) => |execution| == |ids| && forall i | 0 <= i < |ids| :: Find(enabled, ids[i]) == Some(execution[i])
  }

  method SelectExecution(enabled: seq<Segment>, selection: Option<seq<SegmentId>>)
    returns (execution: Option<seq<Segment>>)
    ensures execution.Some? ==> IsExecution(enabled, selection, execution.value)
    ensures execution.None? <==> selection.Some? && exists id :: id in selection.value && Find(enabled, id).None?
  {
    if selection.None? {
      return Some(enabled);
    }
    var chosen := [];
    for i := 0 to |selection.value|
      invariant |chosen| == i
      invariant forall j | 0 <= j < i :: Find(enabled, selection.value[j]) == Some(chosen[j])
    {
      var found := Find(enabled, selection.value[i]);
      if found.None? {
        assert selection.value[i] in selection.value;
        return None;
      }
      chosen := chosen + [found.value];
    }
    return Some(chosen);
  }

  ghost predicate RunnableExecution(draft: Draft, predecessors: map<SegmentId, Segment>, execution: seq<Segment>) {
    && Enabled(draft.segments) != []
    && draft.render.fps == 24.0
    && forall s | s in execution :: RunnableSegment(s, predecessors, draft.render.fps)
  }

  method CheckReferences(execution: seq<Segment>) returns (e: Option<DraftError>)
    ensures e.None? <==> forall s | s in execution :: DenseReferences(s) && TagsAvailable(s)
  {
    e := None;
    for i := 0 to |execution|
      invariant e.None? && forall j | 0 <= j < i :: DenseReferences(execution[j]) && TagsAvailable(execution[j])
    {
      e := ReferenceError(execution[i]);
      if e.Some? { return; }
    }
  }

  method CheckContinuity(execution: seq<Segment>, predecessors: map<SegmentId, Segment>, fps: real)
    returns (e: Option<DraftError>)
    ensures e.None? <==>
              forall s | s in execution :: s.id in predecessors ==> ContinuityFits(predecessors[s.id], s, fps)
  {
    e := None;
    for i := 0 to |execution|
      invariant e.None?
      invariant forall j | 0 <= j < i && execution[j].id in predecessors ::
                  ContinuityFits(predecessors[execution[j].id], execution[j], fps)
    {
      e := ContinuityError(execution[i], predecessors, fps);
      if e.Some? { return; }
    }
  }

  method CheckSourceAudio(execution: seq<Segment>, fps: real) returns (e: Option<DraftError>)
    ensures e.None? <==> forall s | s in execution :: SourceAudioFits(s, fps)
  {
    if exists s | s in execution :: !SourceAudioHasSource(s) {
      return Some(SourceAudioWithoutSource);
    }
    e := None;
    for i := 0 to |execution|
      invariant e.None? && forall j | 0 <= j < i :: SourceAudioFits(execution[j], fps)
    {
      assert execution[i] in execution;
      e := SourceAudioError(execution[i], fps);
      if e.Some? { return; }
    }
  }

  ghost predicate Runnable(draft: Draft, selection: Option<seq<SegmentId>>) {
    exists predecessors, execution ::
      && IsPredecessorMap(Enabled(draft.segments), predecessors)
      && IsExecution(Enabled(draft.segments), selection, execution)
      && RunnableExecution(draft, predecessors, execution)
  }

  lemma OnePredecessorMap(enabled: seq<Segment>, pred: map<SegmentId, Segment>)
    requires IsPredecessorMap(enabled, pred)
    ensures forall other | IsPredecessorMap(enabled, other) :: other == pred
  {
    forall other | IsPredecessorMap(enabled, other) ensures other == pred {
      forall s ensures s in other <==> s in pred {
        if s in other { var i :| 0 <= i < |enabled| && enabled[i].id == s; }
        if s in pred { var i :| 0 <= i < |enabled| && enabled[i].id == s; }
      }
      forall s | s in pred ensures other[s] == pred[s] {
        var i :| 0 <= i < |enabled| && enabled[i].id == s;
        assert Linked(enabled, i) && other[enabled[i].id] == enabled[i - 1];
      }
    }
  }

  lemma OneExecution(enabled: seq<Segment>, selection: Option<seq<SegmentId>>, execution: seq<Segment>)
    requires IsExecution(enabled, selection, execution)
    ensures forall other | IsExecution(enabled, selection, other) :: other == execution
  {
  }

  /** Accepts exactly the runnable drafts and selections. */
  method ValidateUnifiedRunnable(draft: Draft, selection: Option<seq<SegmentId>>)
    returns (r: Result<seq<Segment>, DraftError>)
    requires UniqueIds(draft.segments)
    ensures r.Ok? <==> Runnable(draft, selection)
    ensures r.Ok? ==> r.value == Enabled(draft.segments)
  {
    var enabled := Enabled(draft.segments);
    var predecessors := UnifiedContinuityPredecessors(draft.segments);
    OnePredecessorMap(enabled, predecessors);
    if enabled == [] {
      return Err(NothingEnabled);
    }
    var chosen := SelectExecution(enabled, selection);
    if chosen.None? {
      ghost var id :| id in selection.value && Find(enabled, id).None?;
      UnknownIsNotRunnable(draft, selection, id);
      return Err(UnknownSelection);
    }
    var execution := chosen.value;
    OneExecution(enabled, selection, execution);
    assert Runnable(draft, selection) <==> RunnableExecution(draft, predecessors, execution);
    if exists s | s in execution :: s.prompt.blank {
      return Err(BlankPrompt);
    }
    if draft.render.fps != 24.0 {
      return Err(UnsupportedFrameRate);
    }
    var e := CheckContinuity(execution, predecessors, draft.render.fps);
    if e.Some? {
      return Err(e.value);
    }
    if exists s | s in execution :: !HasReferences(s) {
      return Err(MissingReferences);
    }
    if exists s | s in execution :: !ReferenceAudioExists(s) {
      return Err(SilentSourceReference);
    }
    e := CheckReferences(execution);
    if e.Some? {
      return Err(e.value);
    }
    e := CheckSourceAudio(execution, draft.render.fps);
    if e.Some? {
      return Err(e.value);
    }
    return Ok(enabled);
  }

  lemma UnknownIsNotRunnable(draft: Draft, selection: Option<seq<SegmentId>>, id: SegmentId)
    requires selection.Some? && id in selection.value && Find(Enabled(draft.segments), id).None?
    ensures !Runnable(draft, selection)
  {
    var i :| 0 <= i < |selection.value| && selection.value[i] == id;
    forall execution ensures !IsExecution(Enabled(draft.segments), selection, execution) {
      assert |execution| == |selection.value| ==> Find(Enabled(draft.segments), selection.value[i]) != Some(execution[i]);
    }
  }
}
