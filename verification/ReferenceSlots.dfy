/**
 Reference slots: the density check on persisted slot numbers, and why a `<Kind N>` tag of
 a checked prompt names exactly one presented input.
 */
module ReferenceSlots {
  import opened Wrappers
  import opened Drafts

  // --- Dense slots -------------------------------------------------------

  function Insert(x: nat, s: seq<nat>): seq<nat> {
    if s == [] || x <= s[0] then [x] + s else [s[0]] + Insert(x, s[1..])
  }

  function Sorted(s: seq<nat>): seq<nat> {
    if s == [] then [] else Insert(s[0], Sorted(s[1..]))
  }

  function Range(n: nat): (r: seq<nat>)
    ensures |r| == n && forall k | 0 <= k < n :: r[k] == k
  {
    seq(n, k requires 0 <= k < n => k)
  }

  /** The check itself: sorted, the slots are 0, 1, 2 and so on. */
  predicate IsDense(slots: seq<nat>) {
    Sorted(slots) == Range(|slots|)
  }

  predicate Ordered(s: seq<nat>) {
    forall i, j | 0 <= i < j < |s| :: s[i] <= s[j]
  }

  predicate Distinct(s: seq<nat>) {
    forall i, j | 0 <= i < j < |s| :: s[i] != s[j]
  }

  lemma HeadBelowTail(h: nat, t: seq<nat>)
    ensures Ordered([h] + t) <==> Ordered(t) && forall y | y in t :: h <= y
  {
    var s := [h] + t;
    if Ordered(t) && forall y | y in t :: h <= y {
      forall i, j | 0 <= i < j < |s| ensures s[i] <= s[j] {
        assert s[j] == t[j - 1] && s[j] in t;
      }
    }
    if Ordered(s) {
      forall i, j | 0 <= i < j < |t| ensures t[i] <= t[j] {
        assert t[i] == s[i + 1] && t[j] == s[j + 1];
      }
      forall y | y in t ensures h <= y {
        var k :| 0 <= k < |t| && t[k] == y;
        assert s[0] <= s[k + 1];
      }
    }
  }

  lemma HeadApartFromTail(h: nat, t: seq<nat>)
    ensures Distinct([h] + t) <==> Distinct(t) && h !in t
  {
    var s := [h] + t;
    if Distinct(t) && h !in t {
      forall i, j | 0 <= i < j < |s| ensures s[i] != s[j] {
        assert s[j] == t[j - 1] && s[j] in t;
      }
    }
    if Distinct(s) {
      forall i, j | 0 <= i < j < |t| ensures t[i] != t[j] {
        assert t[i] == s[i + 1] && t[j] == s[j + 1];
      }
      forall k | 0 <= k < |t| ensures t[k] != h {
        assert s[0] != s[k + 1];
      }
    }
  }

  lemma HeadAndTail(h: nat, t: seq<nat>)
    ensures Ordered([h] + t) <==> Ordered(t) && forall y | y in t :: h <= y
    ensures Distinct([h] + t) <==> Distinct(t) && h !in t
    ensures forall y :: y in [h] + t <==> y == h || y in t
  {
    HeadBelowTail(h, t);
    HeadApartFromTail(h, t);
  }

  lemma {:induction false} InsertSorts(x: nat, s: seq<nat>)
    requires Ordered(s)
    ensures |Insert(x, s)| == |s| + 1
    ensures Ordered(Insert(x, s))
    ensures forall y :: y in Insert(x, s) <==> y == x || y in s
    ensures Distinct(Insert(x, s)) <==> Distinct(s) && x !in s
  {
    if s == [] || x <= s[0] {
      HeadAndTail(x, s);
    } else {
      var rest := Insert(x, s[1..]);
      assert s == [s[0]] + s[1..] && Insert(x, s) == [s[0]] + rest;
      HeadAndTail(s[0], s[1..]);
      InsertSorts(x, s[1..]);
      HeadAndTail(s[0], rest);
    }
  }

  lemma {:induction false} SortedSorts(s: seq<nat>)
    ensures |Sorted(s)| == |s| && Ordered(Sorted(s))
    ensures forall y :: y in Sorted(s) <==> y in s
    ensures Distinct(Sorted(s)) <==> Distinct(s)
  {
    if s != [] {
      SortedSorts(s[1..]);
      InsertSorts(s[0], Sorted(s[1..]));
      assert s == [s[0]] + s[1..];
      HeadAndTail(s[0], s[1..]);
    }
  }

  /** Strictly increasing naturals leave no room below their length. */
  lemma {:induction false} StrictlyAbove(s: seq<nat>, k: nat)
    requires Ordered(s) && Distinct(s) && k < |s|
    ensures k <= s[k]
  {
    if k > 0 {
      StrictlyAbove(s, k - 1);
    }
  }

  lemma {:induction false} StrictlyBelow(s: seq<nat>, k: nat)
    requires Ordered(s) && Distinct(s) && k < |s| && forall x | x in s :: x < |s|
    ensures s[k] <= k
    decreases |s| - k
  {
    if k + 1 < |s| {
      StrictlyBelow(s, k + 1);
    } else {
      assert s[k] in s;
    }
  }

  /** The check accepts exactly the permutations of 0..N-1. */
  lemma DenseMeansPermutation(slots: seq<nat>)
    ensures IsDense(slots) <==> Distinct(slots) && forall x | x in slots :: x < |slots|
    ensures IsDense(slots) ==> forall k: nat :: k in slots <==> k < |slots|
  {
    var sorted, range := Sorted(slots), Range(|slots|);
    SortedSorts(slots);
    assert forall k: nat :: k in range <==> k < |slots| by {
      forall k: nat ensures k in range <==> k < |slots| {
        assert k < |slots| ==> range[k] == k;
      }
    }
    if Distinct(slots) && forall x | x in slots :: x < |slots| {
      forall k | 0 <= k < |slots| ensures sorted[k] == range[k] {
        StrictlyAbove(sorted, k);
        StrictlyBelow(sorted, k);
      }
    }
  }

  // --- Tags and inputs ---------------------------------------------------

  function SlotsOf(assets: seq<Asset>): (slots: seq<nat>)
    ensures |slots| == |assets| && forall k | 0 <= k < |assets| :: slots[k] == assets[k].slot
  {
    seq(|assets|, k requires 0 <= k < |assets| => assets[k].slot)
  }

  predicate DenseReferences(s: Segment) {
    s.media.References? ==>
      IsDense(SlotsOf(s.media.images)) && IsDense(SlotsOf(s.media.audios)) && IsDense(SlotsOf(s.media.videos))
  }

  predicate PairedSourceAudio(m: Media)
    requires m.References?
  {
    m.source.Some? && m.audioAsReference
  }

  /** The tag numbers a prompt of this segment may use. */
  function AvailableSlots(s: Segment, kind: TagKind): set<nat> {
    match s.media
    case Anchors(first, last) =>
      if kind != Picture || (first.None? && last.None?) then {}
      else if first.Some? && last.Some? then {1, 2}
      else {1}
    case References(images, audios, videos, source, _, _, _) =>
      match kind
      case Picture => set a | a in images :: a.slot + 1
      case Audio =>
        var offset := if PairedSourceAudio(s.media) then 1 else 0;
        (if PairedSourceAudio(s.media) then {1} else {}) + (set a | a in audios :: a.slot + 1 + offset)
      case Video =>
        var offset := if source.Some? then 1 else 0;
        (if source.Some? then {1} else {}) + (set a | a in videos :: a.slot + 1 + offset)
  }

  /** An input as it is compiled: the source's own track, or a reference file with its index. */
  datatype Input = FromSource | FromAnchor(file: string) | FromReference(file: string, index: nat)

  function Referenced(assets: seq<Asset>, offset: nat): (inputs: seq<Input>)
    ensures |inputs| == |assets|
    ensures forall k | 0 <= k < |assets| :: inputs[k] == FromReference(assets[k].file, assets[k].slot + offset)
  {
    seq(|assets|, k requires 0 <= k < |assets| => FromReference(assets[k].file, assets[k].slot + offset))
  }

  function AssetsOf(m: Media, kind: TagKind): seq<Asset>
    requires m.References?
  {
    match kind
    case Picture => m.images
    case Audio => m.audios
    case Video => m.videos
  }

  /** What is presented before the numbered references: the source video, or its audio track. */
  function Leading(m: Media, kind: TagKind): seq<Input>
    requires m.References?
  {
    if (kind == Video && m.source.Some?) || (kind == Audio && PairedSourceAudio(m)) then [FromSource] else []
  }

  /** The compiled descriptors of one kind: independent videos are shifted behind the source, audios are not. */
  function CompiledInputs(s: Segment, kind: TagKind): seq<Input> {
    match s.media
    case Anchors(first, last) =>
      if kind == Picture
      then (if first.Some? then [FromAnchor(first.value.file)] else []) + (if last.Some? then [FromAnchor(last.value.file)] else [])
      else []
    case References(_, _, _, _, _, _, _) =>
      var leading := Leading(s.media, kind);
      leading + Referenced(AssetsOf(s.media, kind), if kind == Video then |leading| else 0)
  }

  /** What `<Kind N>` stands for, given how many inputs come before the indexed ones. */
  predicate Names(inputs: seq<Input>, lead: nat, n: nat, k: nat)
    requires k < |inputs|
  {
    match inputs[k]
    case FromSource => n == 1
    case FromAnchor(_) => n == k + 1
    case FromReference(_, index) => n == index + 1 + lead
  }

  /** The source audio is not counted by the index of an audio descriptor; the source video is. */
  function Lead(s: Segment, kind: TagKind): nat {
    if kind == Audio && s.media.References? then |Leading(s.media, kind)| else 0
  }

  lemma {:induction false} ReferencesAreNamed(assets: seq<Asset>, offset: nat, n: nat)
    requires IsDense(SlotsOf(assets))
    ensures (exists a :: a in assets && a.slot + offset + 1 == n) <==> offset < n <= offset + |assets|
    ensures forall j, k | 0 <= j < |assets| && 0 <= k < |assets| && assets[j].slot == assets[k].slot :: j == k
  {
    var slots := SlotsOf(assets);
    DenseMeansPermutation(slots);
    if a :| a in assets && a.slot + offset + 1 == n {
      var j :| 0 <= j < |assets| && assets[j] == a;
      assert slots[j] in slots;
    }
    if offset < n <= offset + |assets| {
      var k: nat := n - offset - 1;
      assert k in slots;
      var j :| 0 <= j < |slots| && slots[j] == k;
      assert assets[j] in assets;
    }
  }

  /** An available tag number is at most the number of compiled inputs, and each up to it is available. */
  lemma TagsAreDense(s: Segment, kind: TagKind, n: nat)
    requires DenseReferences(s)
    ensures n in AvailableSlots(s, kind) <==> 1 <= n <= |CompiledInputs(s, kind)|
  {
    match s.media
    case Anchors(_, _) =>
    case References(_, _, _, _, _, _, _) =>
      ReferencesAreNamed(AssetsOf(s.media, kind), |Leading(s.media, kind)|, n);
  }

  ghost predicate NamesExactlyOne(inputs: seq<Input>, lead: nat, n: nat) {
    && (exists k: nat :: k < |inputs| && Names(inputs, lead, n, k))
    && (forall j: nat, k: nat | j < |inputs| && k < |inputs| && Names(inputs, lead, n, j) && Names(inputs, lead, n, k) :: j == k)
  }

  /** An optional source in front of densely slotted references: each number up to the count names one of them. */
  lemma SourceThenReferences(assets: seq<Asset>, before: seq<Input>, offset: nat, lead: nat, n: nat)
    requires IsDense(SlotsOf(assets))
    requires before == [] || before == [FromSource]
    requires offset + lead == |before| && 1 <= n <= |before| + |assets|
    ensures NamesExactlyOne(before + Referenced(assets, offset), lead, n)
  {
    var inputs := before + Referenced(assets, offset);
    ReferencesAreNamed(assets, offset + lead, n);
    if n <= |before| {
      assert Names(inputs, lead, n, 0);
    } else {
      var a :| a in assets && a.slot + offset + lead + 1 == n;
      var j :| 0 <= j < |assets| && assets[j] == a;
      assert Names(inputs, lead, n, |before| + j);
    }
  }

  /** In a segment that passed the checks every tag of the prompt names exactly one compiled input. */
  lemma TagNamesExactlyOne(s: Segment, kind: TagKind, n: nat)
    requires DenseReferences(s) && n in AvailableSlots(s, kind)
    ensures NamesExactlyOne(CompiledInputs(s, kind), Lead(s, kind), n)
  {
    TagsAreDense(s, kind, n);
    var inputs := CompiledInputs(s, kind);
    match s.media
    case Anchors(_, _) =>
      var k: nat := n - 1;
      assert Names(inputs, Lead(s, kind), n, k);
    case References(_, _, _, _, _, _, _) =>
      var leading := Leading(s.media, kind);
      var offset := if kind == Video then |leading| else 0;
      SourceThenReferences(AssetsOf(s.media, kind), leading, offset, |leading| - offset, n);
  }

  /** The source comes first: a source video always, its audio only when it is used as a reference. */
  predicate SourceLeads(m: Media, kind: TagKind)
    requires m.References?
  {
    match kind
    case Picture => false
    case Audio => m.source != None && m.audioAsReference
    case Video => m.source != None
  }

  /** What a segment is compiled from, exactly and in order. */
  lemma InputsExactly(s: Segment, kind: TagKind)
    ensures var inputs := CompiledInputs(s, kind);
            match s.media
            case Anchors(first, last) =>
              && (kind != Picture ==> inputs == [])
              && (kind == Picture ==>
                    && |inputs| == (if first == None then 0 else 1) + (if last == None then 0 else 1)
                    && (first != None ==> inputs[0] == FromAnchor(first.value.file))
                    && (last != None ==> inputs[|inputs| - 1] == FromAnchor(last.value.file)))
            case References(images, audios, videos, _, _, _, _) =>
              var lead := if SourceLeads(s.media, kind) then 1 else 0;
              && |inputs| == lead + (match kind case Picture => |images| case Audio => |audios| case Video => |videos|)
              && (SourceLeads(s.media, kind) ==> inputs[0] == FromSource)
              && (forall k | 0 <= k < |images| && kind == Picture :: inputs[k] == FromReference(images[k].file, images[k].slot))
              && (forall k | 0 <= k < |audios| && kind == Audio ::
                    inputs[lead + k] == FromReference(audios[k].file, audios[k].slot))
              && (forall k | 0 <= k < |videos| && kind == Video ::
                    inputs[lead + k] == FromReference(videos[k].file, videos[k].slot + lead))
  {
  }

  /**
   What a tag of a prompt stands for: behind a leading source, which is number one, the
   references count on from two in the order of their slots, otherwise from one.
   */
  lemma TagMeaning(s: Segment, kind: TagKind, n: nat, k: nat)
    requires s.media.References? && k < |CompiledInputs(s, kind)|
    ensures var lead := if SourceLeads(s.media, kind) then 1 else 0;
            Names(CompiledInputs(s, kind), Lead(s, kind), n, k)
            <==> if k < lead then n == 1 else n == AssetsOf(s.media, kind)[k - lead].slot + lead + 1
  {
    var leading := Leading(s.media, kind);
    var offset := if kind == Video then |leading| else 0;
    var references := Referenced(AssetsOf(s.media, kind), offset);
    assert CompiledInputs(s, kind) == leading + references;
    assert |leading| == if SourceLeads(s.media, kind) then 1 else 0;
    if k >= |leading| {
      assert CompiledInputs(s, kind)[k] == references[k - |leading|];
    } else {
      assert CompiledInputs(s, kind)[k] == FromSource;
    }
  }
}
