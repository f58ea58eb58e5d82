/** A project's timeline draft: what the compiler reads of it. */
module Drafts {
  import opened Wrappers
  import ContinuityGraph

  type SegmentId = ContinuityGraph.SegmentId

  datatype Family = FL2VA | Ref2VA

  datatype Continuity = Continuity(enabled: bool, overlapFrames: int)

  datatype TagKind = Picture | Audio | Video

  /** One `<Kind N>` occurrence in a prompt. */
  datatype Tag = Tag(kind: TagKind, number: nat)

  datatype Prompt = Prompt(text: string, blank: bool, tags: seq<Tag>)

  datatype Asset = Asset(file: string, slot: nat)

  datatype Source = Source(file: string, duration: real, hasAudio: bool)

  datatype AudioMode = GenerateAudio | SourceAudio | Mute

  /** The media of the two families: anchor images, or a source video with references. */
  datatype Media =
    | Anchors(first: Option<Asset>, last: Option<Asset>)
    | References(
        images: seq<Asset>,
        audios: seq<Asset>,
        videos: seq<Asset>,
        source: Option<Source>,
        startSeconds: real,
        lengthSeconds: real,
        audioAsReference: bool
      )

  datatype Segment = Segment(
    id: SegmentId,
    enabled: bool,
    prompt: Prompt,
    durationSeconds: real,
    continuity: Continuity,
    audioMode: AudioMode,
    media: Media
  )

  datatype Render = Render(width: nat, height: nat, fps: real)

  /** One document per family. */
  datatype PerFamily = PerFamily(fl2va: string, ref2va: string)

  datatype Draft = Draft(segments: seq<Segment>, render: Render, sampling: PerFamily)

  datatype Models = Models(diffusion: PerFamily, clip: string, videoVae: string, audioVae: string)

  function FamilyOf(s: Segment): Family {
    if s.media.Anchors? then FL2VA else Ref2VA
  }

  function Of(documents: PerFamily, family: Family): string {
    match family
    case FL2VA => documents.fl2va
    case Ref2VA => documents.ref2va
  }

  predicate UniqueIds(segments: seq<Segment>) {
    forall i, j | 0 <= i < j < |segments| :: segments[i].id != segments[j].id
  }

  function Enabled(segments: seq<Segment>): seq<Segment> {
    if segments == [] then [] else
      var last := segments[|segments| - 1];
      Enabled(segments[..|segments| - 1]) + (if last.enabled then [last] else [])
  }

  lemma {:induction false} EnabledKeepsUnique(segments: seq<Segment>)
    requires UniqueIds(segments)
    ensures UniqueIds(Enabled(segments))
    ensures forall e | e in Enabled(segments) :: e in segments && e.enabled
  {
    if segments != [] {
      var before := segments[..|segments| - 1];
      EnabledKeepsUnique(before);
      assert segments == before + [segments[|segments| - 1]];
      assert forall e | e in before :: e.id != segments[|segments| - 1].id;
    }
  }
}
