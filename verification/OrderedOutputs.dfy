/**
 Matching the outputs published by a job's children against the selected enabled
 segments of its timeline, one to one and in timeline order.
 */
module OrderedOutputs {
  import opened Wrappers

  type SegmentId = nat
  type NodeId = nat
  type ChildId = nat

  datatype Output = Output(node: NodeId, file: nat)

  datatype Artifact = Artifact(child: ChildId, segment: SegmentId, file: nat)

  datatype Expected = Expected(segment: SegmentId, node: NodeId)

  /** A typed child is judged by its immutable expectation and its observed artifact alone. */
  datatype Source =
    | Legacy(segmentOf: map<NodeId, SegmentId>, outputs: seq<Output>)
    | Typed(expected: Option<Expected>, artifact: Option<Artifact>)

  datatype Child = Child(id: ChildId, source: Source)

  /** One published output, with the segment it belongs to when that is known. */
  datatype Entry = Entry(segment: Option<SegmentId>, output: Output)

  function Owner(segmentOf: map<NodeId, SegmentId>, node: NodeId): Option<SegmentId> {
    if node in segmentOf then Some(segmentOf[node]) else None
  }

  function Entries(c: Child): seq<Entry> {
    match c.source
    case Typed(Some(e), Some(a)) =>
      if a.child == c.id && a.segment == e.segment
      then [Entry(Some(e.segment), Output(e.node, a.file))] else []
    case Typed(_, _) => []
    case Legacy(segmentOf, outputs) =>
      seq(|outputs|, i requires 0 <= i < |outputs| => Entry(Owner(segmentOf, outputs[i].node), outputs[i]))
  }

  function AllEntries(children: seq<Child>): seq<Entry> {
    if children == [] then [] else Entries(children[0]) + AllEntries(children[1..])
  }

  predicate Distinct<T(==)>(s: seq<T>) {
    forall i, j | 0 <= i < j < |s| :: s[i] != s[j]
  }

  /** The entries that exactly one output per requested segment would make. */
  function Paired(ordered: seq<SegmentId>, outputs: seq<Output>): seq<Entry>
    requires |ordered| == |outputs|
  {
    seq(|ordered|, i requires 0 <= i < |ordered| => Entry(Some(ordered[i]), outputs[i]))
  }

  /**
   A complete match: the published entries are the requested segments' entries, each
   once, nothing missing, nothing unknown, nothing twice.
   */
  ghost predicate Complete(ordered: seq<SegmentId>, entries: seq<Entry>, outputs: seq<Output>) {
    |ordered| == |outputs| && multiset(entries) == multiset(Paired(ordered, outputs))
  }

  datatype OutputError = DuplicateOutput(segment: SegmentId) | SetMismatch

  // --- Sequences without repetition as multisets --------------------------

  lemma {:induction false} DistinctCountsOnce<T>(s: seq<T>, x: T)
    requires Distinct(s)
    ensures multiset(s)[x] == if x in s then 1 else 0
  {
    if s != [] {
      var last := |s| - 1;
      assert s == s[..last] + [s[last]];
      DistinctCountsOnce(s[..last], x);
    }
  }

  lemma SameElementsSameMultiset<T>(s: seq<T>, t: seq<T>)
    requires Distinct(s) && Distinct(t)
    requires forall x :: x in s <==> x in t
    ensures multiset(s) == multiset(t)
  {
    forall x ensures multiset(s)[x] == multiset(t)[x] {
      DistinctCountsOnce(s, x);
      DistinctCountsOnce(t, x);
    }
  }

  lemma PairedDistinct(ordered: seq<SegmentId>, outputs: seq<Output>)
    requires |ordered| == |outputs| && Distinct(ordered)
    ensures Distinct(Paired(ordered, outputs))
  {
  }

  lemma TwicePresent<T>(s: seq<T>, i: nat, j: nat)
    requires i < j < |s| && s[i] == s[j]
    ensures multiset(s)[s[i]] >= 2
  {
    assert s == s[..j] + s[j..];
    assert s[i] in s[..j] && s[j] in s[j..];
  }

  /** Two entries of one segment can never be part of a complete match. */
  lemma {:induction false} DuplicateBreaksMatch(
    ordered: seq<SegmentId>, entries: seq<Entry>, i: nat, j: nat, outputs: seq<Output>)
    requires Distinct(ordered)
    requires i < j < |entries| && entries[i].segment.Some? && entries[i].segment == entries[j].segment
    ensures !Complete(ordered, entries, outputs)
  {
    if Complete(ordered, entries, outputs) {
      var paired := Paired(ordered, outputs);
      PairedDistinct(ordered, outputs);
      assert entries[i] in multiset(entries) && entries[j] in multiset(entries);
      var a :| 0 <= a < |paired| && paired[a] == entries[i];
      var b :| 0 <= b < |paired| && paired[b] == entries[j];
      assert ordered[a] == ordered[b];
      TwicePresent(entries, i, j);
      DistinctCountsOnce(paired, entries[i]);
    }
  }

  /** The outputs of a complete match are determined by the entries. */
  lemma MatchIsUnique(ordered: seq<SegmentId>, entries: seq<Entry>, a: seq<Output>, b: seq<Output>)
    requires Distinct(ordered) && Complete(ordered, entries, a) && Complete(ordered, entries, b)
    ensures a == b
  {
    forall i | 0 <= i < |a| ensures a[i] == b[i] {
      assert Paired(ordered, a)[i] in multiset(Paired(ordered, a));
      assert Paired(ordered, a)[i] in multiset(Paired(ordered, b));
      var j :| 0 <= j < |b| && Paired(ordered, b)[j] == Paired(ordered, a)[i];
      assert ordered[j] == ordered[i];
    }
  }

  // --- The matching loop -------------------------------------------------

  lemma AllEntriesAppend(children: seq<Child>, k: nat)
    requires k < |children|
    ensures AllEntries(children[..k + 1]) == AllEntries(children[..k]) + Entries(children[k])
  {
    if k == 0 {
      assert children[..1] == [children[0]];
      assert AllEntries(children[..0]) == [];
      assert AllEntries(children[..1]) == Entries(children[0]) + AllEntries(children[..1][1..]);
    } else {
      AllEntriesAppend(children[1..], k - 1);
      assert children[..k + 1][1..] == children[1..][..k];
      assert children[..k][1..] == children[1..][..k - 1];
    }
  }

  lemma {:induction false} AllEntriesPrefix(children: seq<Child>, k: nat)
    requires k <= |children|
    ensures AllEntries(children) == AllEntries(children[..k]) + AllEntries(children[k..])
  {
    if k == 0 {
      assert children[0..] == children;
    } else {
      AllEntriesPrefix(children[1..], k - 1);
      assert children[..k][1..] == children[1..][..k - 1];
      assert children[k..] == children[1..][k - 1..];
    }
  }

  /** `found` holds exactly the known entries read so far, and no segment twice. */
  ghost predicate Read(entries: seq<Entry>, found: map<SegmentId, Output>, unknown: bool) {
    && (unknown <==> exists i :: 0 <= i < |entries| && entries[i].segment.None?)
    && (forall i | 0 <= i < |entries| && entries[i].segment.Some? ::
          entries[i].segment.value in found && found[entries[i].segment.value] == entries[i].output)
    && (forall s | s in found :: Entry(Some(s), found[s]) in entries)
    && (forall i, j | 0 <= i < j < |entries| && entries[i].segment.Some? :: entries[i].segment != entries[j].segment)
  }

  lemma ReadOne(entries: seq<Entry>, e: Entry, found: map<SegmentId, Output>, unknown: bool)
    requires Read(entries, found, unknown)
    requires e.segment.Some? ==> e.segment.value !in found
    ensures Read(entries + [e],
                 if e.segment.Some? then found[e.segment.value := e.output] else found,
                 unknown || e.segment.None?)
  {
    var after := entries + [e];
    assert forall i | 0 <= i < |entries| :: after[i] == entries[i];
    assert after[|entries|] == e;
  }

  lemma ReadMatches(ordered: seq<SegmentId>, entries: seq<Entry>, found: map<SegmentId, Output>, outputs: seq<Output>)
    requires Distinct(ordered) && Read(entries, found, false)
    requires found.Keys == (set s | s in ordered) && |outputs| == |ordered|
    requires forall i | 0 <= i < |ordered| :: outputs[i] == found[ordered[i]]
    ensures Complete(ordered, entries, outputs)
  {
    var paired := Paired(ordered, outputs);
    PairedDistinct(ordered, outputs);
    forall x ensures x in entries <==> x in paired {
      if x in entries {
        var i :| 0 <= i < |entries| && entries[i] == x;
        assert entries[i].segment.Some?;
        assert x.segment.value in found.Keys;
        var k :| 0 <= k < |ordered| && ordered[k] == x.segment.value;
        assert paired[k] == x;
      }
      if x in paired {
        var k :| 0 <= k < |paired| && paired[k] == x;
        assert ordered[k] in found.Keys;
      }
    }
    SameElementsSameMultiset(entries, paired);
  }

  lemma MismatchHasNoMatch(ordered: seq<SegmentId>, entries: seq<Entry>, found: map<SegmentId, Output>, unknown: bool)
    requires Read(entries, found, unknown) && (unknown || found.Keys != (set s | s in ordered))
    ensures forall outputs :: !Complete(ordered, entries, outputs)
  {
    forall outputs ensures !Complete(ordered, entries, outputs) {
      if Complete(ordered, entries, outputs) {
        var paired := Paired(ordered, outputs);
        assert forall x :: x in entries <==> x in multiset(entries);
        assert forall x :: x in paired <==> x in multiset(paired);
        forall i | 0 <= i < |entries| ensures entries[i].segment.Some? && entries[i].segment.value in ordered {
          assert entries[i] in multiset(paired);
        }
        forall s | s in found ensures s in ordered {
          assert Entry(Some(s), found[s]) in multiset(paired);
        }
        forall k | 0 <= k < |ordered| ensures ordered[k] in found {
          assert paired[k] in multiset(entries);
          var i :| 0 <= i < |entries| && entries[i] == paired[k];
        }
      }
    }
  }

  /** Where the k-th entry of child c sits among all entries. */
  lemma EntryPosition(children: seq<Child>, c: nat, k: nat)
    requires c < |children| && k < |Entries(children[c])|
    ensures var before := AllEntries(children[..c]) + Entries(children[c])[..k];
            && |before| < |AllEntries(children)|
            && AllEntries(children)[..|before|] == before
            && AllEntries(children)[|before|] == Entries(children[c])[k]
  {
    AllEntriesPrefix(children, c + 1);
    AllEntriesAppend(children, c);
    PositionInMiddle(AllEntries(children[..c]), Entries(children[c]), AllEntries(children[c + 1..]), k);
  }

  lemma PositionInMiddle<T>(head: seq<T>, middle: seq<T>, rest: seq<T>, k: nat)
    requires k < |middle|
    ensures var all, before := head + middle + rest, head + middle[..k];
            |before| < |all| && all[..|before|] == before && all[|before|] == middle[k]
  {
  }

  lemma SecondEntryBreaksMatch(
    ordered: seq<SegmentId>, all: seq<Entry>, before: seq<Entry>, found: map<SegmentId, Output>, unknown: bool)
    requires Distinct(ordered) && |before| < |all| && all[..|before|] == before && Read(before, found, unknown)
    requires all[|before|].segment.Some? && all[|before|].segment.value in found
    ensures forall outputs :: !Complete(ordered, all, outputs)
  {
    var e := all[|before|];
    var i :| 0 <= i < |before| && before[i] == Entry(e.segment, found[e.segment.value]);
    assert all[i] == all[..|before|][i];
    forall outputs ensures !Complete(ordered, all, outputs) {
      DuplicateBreaksMatch(ordered, all, i, |before|, outputs);
    }
  }

  /** Read one child's entries after `before`; stop at the first segment seen twice. */
  method CollectChild(ghost before: seq<Entry>, entries: seq<Entry>, known: map<SegmentId, Output>, anyUnknown: bool)
    returns (found: map<SegmentId, Output>, unknown: bool, stopped: nat)
    requires Read(before, known, anyUnknown)
    ensures stopped <= |entries| && Read(before + entries[..stopped], found, unknown)
    ensures stopped < |entries| ==> entries[stopped].segment.Some? && entries[stopped].segment.value in found
  {
    found, unknown, stopped := known, anyUnknown, 0;
    assert before + entries[..0] == before;
    while stopped < |entries| && !(entries[stopped].segment.Some? && entries[stopped].segment.value in found)
      invariant stopped <= |entries| && Read(before + entries[..stopped], found, unknown)
    {
      var e := entries[stopped];
      ReadOne(before + entries[..stopped], e, found, unknown);
      assert before + entries[..stopped] + [e] == before + entries[..stopped + 1];
      if e.segment.Some? {
        found := found[e.segment.value := e.output];
      } else {
        unknown := true;
      }
      stopped := stopped + 1;
    }
  }

  /**
   Collect every child's outputs and match them with the requested segments. A result
   is exactly a complete match; an error means that none exists.
   */
  method OrderedTimelineOutputs(ordered: seq<SegmentId>, children: seq<Child>)
    returns (r: Result<seq<Output>, OutputError>)
    requires Distinct(ordered)
    ensures r.Ok? ==> Complete(ordered, AllEntries(children), r.value)
    ensures r.Err? ==> forall outputs :: !Complete(ordered, AllEntries(children), outputs)
  {
    var found: map<SegmentId, Output> := map[];
    var unknown := false;
    for c := 0 to |children|
      invariant Read(AllEntries(children[..c]), found, unknown)
    {
      var entries := Entries(children[c]);
      AllEntriesAppend(children, c);
      var stopped;
      found, unknown, stopped := CollectChild(AllEntries(children[..c]), entries, found, unknown);
      if stopped < |entries| {
        EntryPosition(children, c, stopped);
        SecondEntryBreaksMatch(ordered, AllEntries(children),
                               AllEntries(children[..c]) + entries[..stopped], found, unknown);
        return Err(DuplicateOutput(entries[stopped].segment.value));
      }
      assert entries[..stopped] == entries;
    }
    assert children[..|children|] == children;
    if unknown || found.Keys != (set s | s in ordered) {
      MismatchHasNoMatch(ordered, AllEntries(children), found, unknown);
      return Err(SetMismatch);
    }
    assert forall k | 0 <= k < |ordered| :: ordered[k] in found.Keys;
    var outputs := seq(|ordered|, i requires 0 <= i < |ordered| && ordered[i] in found => found[ordered[i]]);
    ReadMatches(ordered, AllEntries(children), found, outputs);
    return Ok(outputs);
  }

  // --- Independence of the child order -----------------------------------

  lemma EntriesWithout(b: seq<Child>, i: nat)
    requires i < |b|
    ensures multiset(AllEntries(b)) == multiset(Entries(b[i])) + multiset(AllEntries(b[..i] + b[i + 1..]))
  {
    var rest := b[..i] + b[i + 1..];
    AllEntriesPrefix(b, i);
    AllEntriesPrefix(rest, i);
    assert rest[..i] == b[..i] && rest[i..] == b[i + 1..];
    assert b[i..][1..] == b[i + 1..];
  }

  lemma SameRemainder<T>(a: seq<T>, b: seq<T>, i: nat)
    requires a != [] && i < |b| && b[i] == a[0] && multiset(a) == multiset(b)
    ensures multiset(a[1..]) == multiset(b[..i] + b[i + 1..])
  {
    assert a == [a[0]] + a[1..];
    assert multiset(a[1..]) == multiset(a) - multiset{a[0]};
    assert b == b[..i] + ([b[i]] + b[i + 1..]);
    assert multiset(b[..i] + b[i + 1..]) == multiset(b) - multiset{b[i]};
  }

  lemma {:induction false} EntriesOfPermutation(a: seq<Child>, b: seq<Child>)
    requires multiset(a) == multiset(b)
    ensures multiset(AllEntries(a)) == multiset(AllEntries(b))
    decreases |a|
  {
    if a == [] {
      assert |multiset(b)| == 0;
    } else {
      assert a[0] in multiset(b);
      var i :| 0 <= i < |b| && b[i] == a[0];
      var rest := b[..i] + b[i + 1..];
      SameRemainder(a, b, i);
      EntriesOfPermutation(a[1..], rest);
      EntriesWithout(b, i);
    }
  }

  /** Whether a job's outputs match, and what they are, does not depend on child order. */
  lemma ChildOrderIrrelevant(ordered: seq<SegmentId>, a: seq<Child>, b: seq<Child>, outputs: seq<Output>)
    requires multiset(a) == multiset(b)
    ensures Complete(ordered, AllEntries(a), outputs) <==> Complete(ordered, AllEntries(b), outputs)
  {
    EntriesOfPermutation(a, b);
  }

  /** In a complete match every requested segment owns exactly one published output. */
  lemma CompleteIsOneToOne(ordered: seq<SegmentId>, entries: seq<Entry>, outputs: seq<Output>, k: nat)
    requires Distinct(ordered) && Complete(ordered, entries, outputs) && k < |ordered|
    ensures |entries| == |ordered|
    ensures multiset(entries)[Entry(Some(ordered[k]), outputs[k])] == 1
    ensures forall e | e in entries && e.segment == Some(ordered[k]) :: e.output == outputs[k]
  {
    var paired := Paired(ordered, outputs);
    PairedDistinct(ordered, outputs);
    DistinctCountsOnce(paired, paired[k]);
    assert |entries| == |multiset(entries)| == |multiset(paired)| == |paired|;
    forall e | e in entries && e.segment == Some(ordered[k]) ensures e.output == outputs[k] {
      assert e in multiset(paired);
      var j :| 0 <= j < |paired| && paired[j] == e;
      assert ordered[j] == ordered[k];
    }
  }

  // --- What a match says about the children ------------------------------

  /**
   The child publishes this output for this segment: a typed child the file of its own
   artifact, for the segment and under the node it was expected to fill; another child each
   of its outputs, for the segment its node belongs to.
   */
  predicate Publishes(c: Child, segment: Option<SegmentId>, o: Output) {
    match c.source
    case Typed(expected, artifact) =>
      && expected != None && artifact != None
      && artifact.value.child == c.id && artifact.value.segment == expected.value.segment
      && segment == Some(expected.value.segment) && o.node == expected.value.node && o.file == artifact.value.file
    case Legacy(segmentOf, outputs) =>
      && o in outputs
      && (o.node in segmentOf ==> segment == Some(segmentOf[o.node]))
      && (o.node !in segmentOf ==> segment == None)
  }

  lemma EntriesExactly(c: Child, e: Entry)
    ensures e in Entries(c) <==> Publishes(c, e.segment, e.output)
    ensures if c.source.Legacy? then |Entries(c)| == |c.source.outputs| else |Entries(c)| <= 1
  {
    if c.source.Legacy? && Publishes(c, e.segment, e.output) {
      var i :| 0 <= i < |c.source.outputs| && c.source.outputs[i] == e.output;
      assert Entries(c)[i] == e;
    }
  }

  lemma {:induction false} AllEntriesExactly(children: seq<Child>, e: Entry)
    ensures e in AllEntries(children) <==> exists c :: c in children && Publishes(c, e.segment, e.output)
  {
    if children != [] {
      EntriesExactly(children[0], e);
      AllEntriesExactly(children[1..], e);
      if c :| c in children && Publishes(c, e.segment, e.output) {
        assert c == children[0] || c in children[1..];
      }
    }
  }

  /**
   In a complete match every requested segment's output is published by some child for
   that very segment, and no child publishes anything else.
   */
  lemma MatchIsPublished(ordered: seq<SegmentId>, children: seq<Child>, outputs: seq<Output>)
    requires Complete(ordered, AllEntries(children), outputs)
    ensures forall i | 0 <= i < |ordered| :: exists c :: c in children && Publishes(c, Some(ordered[i]), outputs[i])
    ensures forall c, segment, o | c in children && Publishes(c, segment, o) ::
              exists i :: 0 <= i < |ordered| && segment == Some(ordered[i]) && o == outputs[i]
  {
    var entries, paired := AllEntries(children), Paired(ordered, outputs);
    forall i | 0 <= i < |ordered| ensures exists c :: c in children && Publishes(c, Some(ordered[i]), outputs[i]) {
      assert paired[i] in multiset(paired);
      assert paired[i] in entries;
      AllEntriesExactly(children, paired[i]);
    }
    forall c, segment, o | c in children && Publishes(c, segment, o)
      ensures exists i :: 0 <= i < |ordered| && segment == Some(ordered[i]) && o == outputs[i]
    {
      AllEntriesExactly(children, Entry(segment, o));
      assert Entry(segment, o) in multiset(entries);
      assert Entry(segment, o) in multiset(paired);
      var i :| 0 <= i < |paired| && paired[i] == Entry(segment, o);
    }
  }
}
