/**
 The chained cache keys of compiled segments. The digest is taken to be injective: a key
 is its own payload.
 */
module CacheKeys {
  import opened Wrappers
  import opened Drafts
  import opened ContinuityChains

  /** The project-wide inputs of every key. */
  datatype Context = Context(render: Render, sampling: PerFamily, models: Models)

  datatype Successor = Successor(segment: Segment, family: Family, familyModel: string)

  datatype CacheKey = Digest(
    segment: Segment,
    render: Render,
    sampling: string,
    family: Family,
    familyModel: string,
    clip: string,
    videoVae: string,
    audioVae: string,
    predecessor: Option<CacheKey>,
    successor: Option<Successor>
  )

  function UnifiedCacheKey(
    c: Context, segment: Segment, predecessor: Option<CacheKey>, successor: Option<Successor>): CacheKey
  {
    var family := FamilyOf(segment);
    Digest(
      segment, c.render, Of(c.sampling, family), family, Of(c.models.diffusion, family),
      c.models.clip, c.models.videoVae, c.models.audioVae, predecessor, successor)
  }

  function SuccessorSignature(c: Context, enabled: seq<Segment>, i: nat): Option<Successor>
    requires i < |enabled|
  {
    if i + 1 < |enabled| && Linked(enabled, i + 1) then
      var next := enabled[i + 1];
      Some(Successor(next, FamilyOf(next), Of(c.models.diffusion, FamilyOf(next))))
    else None
  }

  /** The key of the segment at `i`: chained to its neighbour's when it continues it. */
  function KeyAt(c: Context, enabled: seq<Segment>, i: nat): CacheKey
    requires i < |enabled|
  {
    var predecessor := if Linked(enabled, i) then Some(KeyAt(c, enabled, i - 1)) else None;
    UnifiedCacheKey(c, enabled[i], predecessor, SuccessorSignature(c, enabled, i))
  }

  // --- What a key depends on ---------------------------------------------

  predicate SharedAgree(c: Context, d: Context) {
    && c.render == d.render
    && c.models.clip == d.models.clip && c.models.videoVae == d.models.videoVae && c.models.audioVae == d.models.audioVae
  }

  /** The two sets of documents agree on the family of this segment: anchored or referencing. */
  predicate FamilyAgrees(s: Segment, x: PerFamily, y: PerFamily) {
    if s.media.Anchors? then x.fl2va == y.fl2va else x.ref2va == y.ref2va
  }

  /** Some segment continues the one at `i`. */
  predicate Continued(enabled: seq<Segment>, i: nat) {
    i + 1 < |enabled| && Linked(enabled, i + 1)
  }

  /** The same segment, its family's sampling and model, and the same linked successor with its family's model. */
  predicate LocalAgree(c: Context, a: seq<Segment>, i: nat, d: Context, b: seq<Segment>, j: nat)
    requires i < |a| && j < |b|
  {
    && a[i] == b[j]
    && FamilyAgrees(a[i], c.sampling, d.sampling)
    && FamilyAgrees(a[i], c.models.diffusion, d.models.diffusion)
    && (Continued(a, i) <==> Continued(b, j))
    && (Continued(a, i) ==>
          && a[i + 1] == b[j + 1]
          && FamilyAgrees(a[i + 1], c.models.diffusion, d.models.diffusion))
  }

  predicate AgreeAt(c: Context, a: seq<Segment>, d: Context, b: seq<Segment>, k: nat, shift: int) {
    k < |a| && 0 <= k + shift < |b| && LocalAgree(c, a, k, d, b, k + shift)
  }

  ghost predicate AgreeBetween(
    c: Context, a: seq<Segment>, d: Context, b: seq<Segment>, lo: nat, hi: nat, shift: int)
  {
    forall k: nat | lo <= k <= hi :: AgreeAt(c, a, d, b, k, shift)
  }

  /** The chains of `i` and `j` are equally long and agree link by link. */
  ghost predicate ChainsAgree(c: Context, a: seq<Segment>, i: nat, d: Context, b: seq<Segment>, j: nat)
    requires i < |a| && j < |b|
  {
    && ChainLength(a, i) == ChainLength(b, j)
    && AgreeBetween(c, a, d, b, i - ChainLength(a, i), i, j - i)
  }

  lemma ChainsAgreeStep(c: Context, a: seq<Segment>, i: nat, d: Context, b: seq<Segment>, j: nat)
    requires i < |a| && j < |b|
    ensures ChainsAgree(c, a, i, d, b, j) <==>
              && LocalAgree(c, a, i, d, b, j)
              && (Linked(a, i) <==> Linked(b, j))
              && (Linked(a, i) && Linked(b, j) ==> ChainsAgree(c, a, i - 1, d, b, j - 1))
  {
    assert AgreeAt(c, a, d, b, i, j - i) <==> LocalAgree(c, a, i, d, b, j);
    assert (j - 1) - (i - 1) == j - i;
  }

  /**
   Two compilations give the same key exactly when they agree on the render, the shared
   models and, all along the continuity chain up to the segment, on every segment with
   its family's sampling and model and its linked successor.
   */
  lemma {:induction false} SameKeyMeansSameChain(c: Context, a: seq<Segment>, i: nat, d: Context, b: seq<Segment>, j: nat)
    requires i < |a| && j < |b|
    ensures KeyAt(c, a, i) == KeyAt(d, b, j) <==> SharedAgree(c, d) && ChainsAgree(c, a, i, d, b, j)
    decreases i
  {
    ChainsAgreeStep(c, a, i, d, b, j);
    if Linked(a, i) && Linked(b, j) {
      SameKeyMeansSameChain(c, a, i - 1, d, b, j - 1);
    }
  }

  // --- What an edit invalidates ------------------------------------------

  /** The two timelines differ in the segment at `e` and nowhere else. */
  predicate DifferOnlyAt(a: seq<Segment>, b: seq<Segment>, e: nat) {
    && e < |a| == |b|
    && a[e] != b[e]
    && forall k | 0 <= k < |a| && k != e :: a[k] == b[k]
  }

  /** The edited segment, the neighbour it continues before or after the edit, and its downstream chain. */
  predicate Affected(a: seq<Segment>, b: seq<Segment>, e: nat, i: nat)
    requires DifferOnlyAt(a, b, e) && i < |a|
  {
    || i == e
    || (i + 1 == e && (Linked(a, e) || Linked(b, e)))
    || (i > e && i - e <= ChainLength(a, i))
  }

  lemma EditIsLocal(c: Context, a: seq<Segment>, b: seq<Segment>, e: nat, k: nat)
    requires DifferOnlyAt(a, b, e) && k < |a|
    ensures LocalAgree(c, a, k, c, b, k) <==> k != e && !(k + 1 == e && (Linked(a, e) || Linked(b, e)))
    ensures k != e ==> (Linked(a, k) <==> Linked(b, k))
  {
  }

  /** Away from the edit, chains reach back equally far until they meet it. */
  lemma {:induction false} ChainsAwayFromEdit(a: seq<Segment>, b: seq<Segment>, e: nat, i: nat)
    requires DifferOnlyAt(a, b, e) && i < |a| && i != e
    ensures i < e ==> ChainLength(a, i) == ChainLength(b, i)
    ensures i > e ==> (i - e <= ChainLength(a, i) <==> i - e <= ChainLength(b, i))
    ensures i > e && i - e > ChainLength(a, i) ==> ChainLength(a, i) == ChainLength(b, i)
    decreases i
  {
    if Linked(a, i) && i - 1 != e {
      ChainsAwayFromEdit(a, b, e, i - 1);
    }
  }

  /**
   Editing one segment changes exactly its own key, the key of the neighbour it is
   linked to, and the keys of the chain that continues it.
   */
  lemma {:induction false} EditInvalidatesExactly(c: Context, a: seq<Segment>, b: seq<Segment>, e: nat, i: nat)
    requires DifferOnlyAt(a, b, e) && i < |a|
    ensures KeyAt(c, a, i) != KeyAt(c, b, i) <==> Affected(a, b, e, i)
  {
    SameKeyMeansSameChain(c, a, i, c, b, i);
    if i != e { ChainsAwayFromEdit(a, b, e, i); }
    EditIsLocal(c, a, b, e, i);
    if Affected(a, b, e, i) {
      var k: nat := if i > e then e else i;
      EditIsLocal(c, a, b, e, k);
      assert !AgreeAt(c, a, c, b, k, 0) && !AgreeBetween(c, a, c, b, i - ChainLength(a, i), i, 0);
    } else {
      forall k: nat | i - ChainLength(a, i) <= k <= i ensures AgreeAt(c, a, c, b, k, 0) {
        EditIsLocal(c, a, b, e, k);
      }
      assert AgreeBetween(c, a, c, b, i - ChainLength(a, i), i, 0);
    }
  }

  // --- What enabling or disabling a segment invalidates ------------------

  /** `b` is `a` with one more segment, at `e`: it was enabled, or read backwards, disabled. */
  predicate Inserted(a: seq<Segment>, b: seq<Segment>, e: nat) {
    && |b| == |a| + 1 && e <= |a|
    && UniqueIds(b)
    && (forall k | 0 <= k < e :: a[k] == b[k])
    && (forall k, l | e <= k < |a| && l == k + 1 :: a[k] == b[l])
  }

  lemma InsertionKeepsLinks(a: seq<Segment>, b: seq<Segment>, e: nat, k: nat)
    requires Inserted(a, b, e) && k < |a|
    ensures k < e ==> (Linked(a, k) <==> Linked(b, k))
    ensures k > e || (k == e && e > 0) ==> (Linked(a, k) <==> Linked(b, k + 1))
  {
    if k >= e { assert a[k] == b[k + 1]; }
  }

  lemma {:induction false} ChainsBeforeInsertion(a: seq<Segment>, b: seq<Segment>, e: nat, i: nat)
    requires Inserted(a, b, e) && i < e
    ensures ChainLength(a, i) == ChainLength(b, i)
  {
    InsertionKeepsLinks(a, b, e, i);
    if Linked(a, i) { ChainsBeforeInsertion(a, b, e, i - 1); }
  }

  /** Behind the insertion, a chain that does not reach it is unchanged; one that does is longer or ends in another segment. */
  lemma {:induction false} ChainsBehindInsertion(a: seq<Segment>, b: seq<Segment>, e: nat, i: nat)
    requires Inserted(a, b, e) && e <= i < |a|
    ensures i + 1 - e > ChainLength(b, i + 1) ==> ChainLength(a, i) == ChainLength(b, i + 1)
    ensures i + 1 - e <= ChainLength(b, i + 1) ==> (if e == 0 then ChainLength(a, i) == i else ChainLength(a, i) >= i + 1 - e)
    decreases i
  {
    if i > e {
      InsertionKeepsLinks(a, b, e, i);
      if Linked(a, i) { ChainsBehindInsertion(a, b, e, i - 1); }
    } else if e > 0 {
      InsertionKeepsLinks(a, b, e, e);
    }
  }

  /** The neighbour before the insertion is affected when it was linked to what followed, or is to what follows now. */
  predicate LinkedAcross(a: seq<Segment>, b: seq<Segment>, e: nat)
    requires Inserted(a, b, e)
  {
    Linked(b, e) || (e < |a| && Linked(a, e))
  }

  lemma LocalBeforeInsertion(c: Context, a: seq<Segment>, b: seq<Segment>, e: nat, k: nat)
    requires Inserted(a, b, e) && k < e
    ensures LocalAgree(c, a, k, c, b, k) <==> !(k + 1 == e && LinkedAcross(a, b, e))
  {
    if k + 1 < e {
      InsertionKeepsLinks(a, b, e, k + 1);
    } else if e < |a| {
      assert a[e] == b[e + 1];
      assert b[e].id != b[e + 1].id;
    }
  }

  lemma LocalBehindInsertion(c: Context, a: seq<Segment>, b: seq<Segment>, e: nat, k: nat)
    requires Inserted(a, b, e) && e <= k < |a|
    ensures LocalAgree(c, a, k, c, b, k + 1)
  {
    assert a[k] == b[k + 1];
    if k + 1 < |a| {
      assert a[k + 1] == b[k + 2];
      InsertionKeepsLinks(a, b, e, k + 1);
    }
  }

  /**
   Enabling a segment, or disabling it, changes exactly the key of the neighbour linked
   across it and the keys of the segments behind it whose chain reaches back to it.
   */
  lemma {:induction false} InsertionInvalidatesExactly(c: Context, a: seq<Segment>, b: seq<Segment>, e: nat, i: nat)
    requires Inserted(a, b, e) && i < |a|
    ensures i < e ==> (KeyAt(c, a, i) != KeyAt(c, b, i) <==> i + 1 == e && LinkedAcross(a, b, e))
    ensures i >= e ==> (KeyAt(c, a, i) != KeyAt(c, b, i + 1) <==> i + 1 - e <= ChainLength(b, i + 1))
  {
    if i < e {
      SameKeyMeansSameChain(c, a, i, c, b, i);
      ChainsBeforeInsertion(a, b, e, i);
      forall k: nat | i - ChainLength(a, i) <= k <= i
        ensures AgreeAt(c, a, c, b, k, 0) <==> !(k + 1 == e && LinkedAcross(a, b, e))
      {
        LocalBeforeInsertion(c, a, b, e, k);
      }
      assert AgreeBetween(c, a, c, b, i - ChainLength(a, i), i, 0) <==> !(i + 1 == e && LinkedAcross(a, b, e)) by {
        assert AgreeAt(c, a, c, b, i, 0) <==> !(i + 1 == e && LinkedAcross(a, b, e));
      }
    } else {
      SameKeyMeansSameChain(c, a, i, c, b, i + 1);
      ChainsBehindInsertion(a, b, e, i);
      if i + 1 - e > ChainLength(b, i + 1) {
        forall k: nat | i - ChainLength(a, i) <= k <= i ensures AgreeAt(c, a, c, b, k, 1) {
          LocalBehindInsertion(c, a, b, e, k);
        }
        assert AgreeBetween(c, a, c, b, i - ChainLength(a, i), i, 1);
      } else if e > 0 {
        NeighbourReplaced(c, a, b, e);
        assert !AgreeAt(c, a, c, b, e - 1, 1) && !AgreeBetween(c, a, c, b, i - ChainLength(a, i), i, 1);
      }
    }
  }

  lemma NeighbourReplaced(c: Context, a: seq<Segment>, b: seq<Segment>, e: nat)
    requires Inserted(a, b, e) && 0 < e < |a|
    ensures !AgreeAt(c, a, c, b, e - 1, 1)
  {
    assert a[e - 1] == b[e - 1] && b[e - 1].id != b[e].id;
  }

  lemma {:induction false} EnabledConcat(s: seq<Segment>, t: seq<Segment>)
    ensures Enabled(s + t) == Enabled(s) + Enabled(t)
    decreases |t|
  {
    if t == [] {
      assert s + t == s;
    } else {
      EnabledConcat(s, t[..|t| - 1]);
      assert (s + t)[..|s + t| - 1] == s + t[..|t| - 1];
    }
  }

  lemma EnabledAround(pre: seq<Segment>, x: Segment, post: seq<Segment>)
    ensures Enabled(pre + ([x] + post)) == Enabled(pre) + ((if x.enabled then [x] else []) + Enabled(post))
  {
    EnabledConcat(pre, [x] + post);
    EnabledConcat([x], post);
    assert [x][..0] == [];
    assert Enabled([x]) == if x.enabled then [x] else [];
  }

  lemma InsertedBetween(pre: seq<Segment>, x: Segment, post: seq<Segment>)
    requires UniqueIds(pre + ([x] + post))
    ensures Inserted(pre + post, pre + ([x] + post), |pre|)
  {
  }

  /** Enabling a segment of a draft inserts it into the enabled timeline. */
  lemma EnablingInserts(pre: seq<Segment>, x: Segment, post: seq<Segment>)
    requires UniqueIds(pre + ([x] + post)) && !x.enabled
    ensures Inserted(
              Enabled(pre + ([x] + post)), Enabled(pre + ([x.(enabled := true)] + post)), |Enabled(pre)|)
  {
    var now := x.(enabled := true);
    EnabledAround(pre, x, post);
    EnabledAround(pre, now, post);
    RenamingNothing(pre, x, now, post);
    EnabledKeepsUnique(pre + ([now] + post));
    assert [] + Enabled(post) == Enabled(post);
    InsertedBetween(Enabled(pre), now, Enabled(post));
  }

  lemma RenamingNothing(pre: seq<Segment>, x: Segment, now: Segment, post: seq<Segment>)
    requires UniqueIds(pre + ([x] + post)) && now.id == x.id
    ensures UniqueIds(pre + ([now] + post))
  {
    var a, b := pre + ([x] + post), pre + ([now] + post);
    forall k, l | 0 <= k < l < |b| ensures b[k].id != b[l].id {
      assert a[k].id == b[k].id && a[l].id == b[l].id;
    }
  }
}
