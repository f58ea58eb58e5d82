/**
 The product configuration of LoRA loaders: a tolerant load that drops invalid entries,
 the strict validators its result must satisfy, and the published snapshot.
 */
module LoaderConfig {
  import opened Wrappers

  datatype ModelFamily = FL2VA | Ref2VA

  datatype OptionDefinition = OptionDefinition(id: string, title: string, initially: bool)

  datatype Loader = Loader(id: string, classType: string, families: seq<ModelFamily>, options: seq<OptionDefinition>)

  datatype Selection = Selection(loaderIds: seq<string>, defaultId: string)

  datatype Policy = Policy(filename: string, selection: Selection)

  datatype Config = Config(loaders: seq<Loader>, fallback: Selection, policies: seq<Policy>)

  /** A JSON value read against a schema: its fields fit the declared types and patterns, or not. */
  datatype Raw<T> = Malformed | Parsed(value: T)

  datatype RawPolicies = Absent | NotAList | Listed(items: seq<Raw<Policy>>)

  datatype RawConfig = RawConfig(
    rootValid: bool,
    unknownFields: bool,
    loaders: Option<seq<Raw<Loader>>>,
    fallback: Raw<Selection>,
    policies: RawPolicies
  )

  datatype Diagnostic = LoaderEntryInvalid(index: nat) | PolicyEntryInvalid(index: nat) | PolicyListInvalid

  datatype ConfigError =
    | InvalidRoot | UnknownFields | LoadersNotAList | NoValidLoader | InvalidFallback | UnavailableFallback
    | InitializedElsewhere | Unreadable | NotInitialized

  // --- The strict validators ---------------------------------------------

  predicate Distinct<T(==)>(s: seq<T>) {
    forall i, j | 0 <= i < j < |s| :: s[i] != s[j]
  }

  predicate DistinctBy<T>(s: seq<T>, key: T -> string) {
    forall i, j | 0 <= i < j < |s| :: key(s[i]) != key(s[j])
  }

  function OptionId(o: OptionDefinition): string { o.id }

  predicate ValidLoader(l: Loader) {
    && l.families != [] && Distinct(l.families)
    && DistinctBy(l.options, OptionId)
  }

  predicate ValidSelection(s: Selection) {
    s.loaderIds != [] && Distinct(s.loaderIds) && s.defaultId in s.loaderIds
  }

  predicate ValidPolicy(p: Policy, compiles: string -> bool) {
    ValidSelection(p.selection) && compiles(p.filename)
  }

  function LoaderId(l: Loader): string { l.id }

  function Pattern(p: Policy): string { p.filename }

  function LoaderIds(loaders: seq<Loader>): set<string> {
    set l | l in loaders :: l.id
  }

  predicate Known(s: Selection, ids: set<string>) {
    forall id | id in s.loaderIds :: id in ids
  }

  predicate StrictlyValid(c: Config, compiles: string -> bool) {
    && c.loaders != [] && (forall l | l in c.loaders :: ValidLoader(l)) && DistinctBy(c.loaders, LoaderId)
    && ValidSelection(c.fallback) && Known(c.fallback, LoaderIds(c.loaders))
    && (forall p | p in c.policies :: ValidPolicy(p, compiles) && Known(p.selection, LoaderIds(c.loaders)))
    && DistinctBy(c.policies, Pattern)
  }

  // --- What the filter keeps ---------------------------------------------

  predicate Accepted<T>(item: Raw<T>, accepts: T -> bool) {
    item.Parsed? && accepts(item.value)
  }

  /** An entry is kept when it is acceptable and the first acceptable one of its key. */
  predicate IsKept<T>(items: seq<Raw<T>>, accepts: T -> bool, key: T -> string, i: nat)
    requires i < |items|
  {
    && Accepted(items[i], accepts)
    && forall j | 0 <= j < i && Accepted(items[j], accepts) :: key(items[j].value) != key(items[i].value)
  }

  function Kept<T>(items: seq<Raw<T>>, accepts: T -> bool, key: T -> string, n: nat): seq<T>
    requires n <= |items|
  {
    if n == 0 then [] else
      Kept(items, accepts, key, n - 1)
      + (if IsKept(items, accepts, key, n - 1) then [items[n - 1].value] else [])
  }

  function Dropped<T>(items: seq<Raw<T>>, accepts: T -> bool, key: T -> string, n: nat): seq<nat>
    requires n <= |items|
  {
    if n == 0 then [] else
      Dropped(items, accepts, key, n - 1)
      + (if IsKept(items, accepts, key, n - 1) then [] else [n - 1])
  }

  lemma {:induction false} KeptKeys<T>(items: seq<Raw<T>>, accepts: T -> bool, key: T -> string, n: nat, k: string)
    requires n <= |items|
    ensures (exists v :: v in Kept(items, accepts, key, n) && key(v) == k) <==>
              exists j :: 0 <= j < n && Accepted(items[j], accepts) && key(items[j].value) == k
  {
    if n > 0 {
      KeptKeys(items, accepts, key, n - 1, k);
      var last := items[n - 1];
      var before := Kept(items, accepts, key, n - 1);
      assert forall v :: v in Kept(items, accepts, key, n) <==>
               v in before || (IsKept(items, accepts, key, n - 1) && v == last.value);
      if Accepted(last, accepts) && key(last.value) == k && IsKept(items, accepts, key, n - 1) {
        assert last.value in Kept(items, accepts, key, n);
      }
    }
  }

  lemma {:induction false} KeptIsValid<T>(items: seq<Raw<T>>, accepts: T -> bool, key: T -> string, n: nat)
    requires n <= |items|
    ensures forall v | v in Kept(items, accepts, key, n) :: accepts(v)
    ensures DistinctBy(Kept(items, accepts, key, n), key)
  {
    if n > 0 {
      KeptIsValid(items, accepts, key, n - 1);
      if IsKept(items, accepts, key, n - 1) {
        KeptKeys(items, accepts, key, n - 1, key(items[n - 1].value));
        var before := Kept(items, accepts, key, n - 1);
        assert forall i | 0 <= i < |before| :: before[i] in before;
      }
    }
  }

  function AllParsed<T>(values: seq<T>): (items: seq<Raw<T>>)
    ensures |items| == |values| && forall i | 0 <= i < |values| :: items[i] == Parsed(values[i])
  {
    seq(|values|, i requires 0 <= i < |values| => Parsed(values[i]))
  }

  /** Entries that are all acceptable and distinct are all kept, in order. */
  lemma {:induction false} NothingDropped<T>(values: seq<T>, accepts: T -> bool, key: T -> string, n: nat)
    requires n <= |values| && DistinctBy(values, key) && forall v | v in values :: accepts(v)
    ensures Kept(AllParsed(values), accepts, key, n) == values[..n]
    ensures Dropped(AllParsed(values), accepts, key, n) == []
  {
    if n > 0 {
      NothingDropped(values, accepts, key, n - 1);
      assert values[n - 1] in values;
      assert IsKept(AllParsed(values), accepts, key, n - 1);
      assert values[..n] == values[..n - 1] + [values[n - 1]];
    }
  }

  lemma {:induction false} DroppedMeaning<T>(items: seq<Raw<T>>, accepts: T -> bool, key: T -> string, n: nat)
    requires n <= |items|
    ensures forall i: nat :: i in Dropped(items, accepts, key, n) <==> i < n && !IsKept(items, accepts, key, i)
    ensures |Kept(items, accepts, key, n)| + |Dropped(items, accepts, key, n)| == n
  {
    if n > 0 {
      DroppedMeaning(items, accepts, key, n - 1);
    }
  }

  // --- Diagnostics -------------------------------------------------------

  const MAX_DIAGNOSTICS := 16

  function LoaderReport(i: nat): Diagnostic { LoaderEntryInvalid(i) }

  function PolicyReport(i: nat): Diagnostic { PolicyEntryInvalid(i) }

  function Capped(all: seq<Diagnostic>): (r: seq<Diagnostic>)
    ensures |r| <= MAX_DIAGNOSTICS && r <= all
    ensures |all| <= MAX_DIAGNOSTICS ==> r == all
  {
    if |all| <= MAX_DIAGNOSTICS then all else all[..MAX_DIAGNOSTICS]
  }

  /** Recording one at a time under the cap keeps the first sixteen. */
  function Diagnose(diagnostics: seq<Diagnostic>, d: Diagnostic): seq<Diagnostic> {
    if |diagnostics| < MAX_DIAGNOSTICS then diagnostics + [d] else diagnostics
  }

  lemma DiagnoseIsCapped(all: seq<Diagnostic>, d: Diagnostic)
    ensures Diagnose(Capped(all), d) == Capped(all + [d])
  {
  }

  function Reports(indexes: seq<nat>, report: nat -> Diagnostic): (r: seq<Diagnostic>)
    ensures |r| == |indexes|
  {
    seq(|indexes|, i requires 0 <= i < |indexes| => report(indexes[i]))
  }

  lemma ReportsAppend(all: seq<Diagnostic>, indexes: seq<nat>, i: nat, report: nat -> Diagnostic)
    ensures all + Reports(indexes + [i], report) == all + Reports(indexes, report) + [report(i)]
  {
  }

  // --- The tolerant load -------------------------------------------------

  /** One filtering loop: keep the acceptable entries, record the others. */
  method KeepFirst<T>(
    items: seq<Raw<T>>, accepts: T -> bool, key: T -> string, report: nat -> Diagnostic,
    diagnostics: seq<Diagnostic>, ghost all: seq<Diagnostic>)
    returns (kept: seq<T>, diagnostics': seq<Diagnostic>)
    requires diagnostics == Capped(all)
    ensures kept == Kept(items, accepts, key, |items|)
    ensures diagnostics' == Capped(all + Reports(Dropped(items, accepts, key, |items|), report))
  {
    kept, diagnostics' := [], diagnostics;
    var keys: set<string> := {};
    assert all + Reports([], report) == all;
    for i := 0 to |items|
      invariant kept == Kept(items, accepts, key, i)
      invariant diagnostics' == Capped(all + Reports(Dropped(items, accepts, key, i), report))
      invariant forall k :: k in keys <==> exists j :: 0 <= j < i && Accepted(items[j], accepts) && key(items[j].value) == k
    {
      ghost var dropped := Dropped(items, accepts, key, i);
      if items[i].Malformed? || !accepts(items[i].value) || key(items[i].value) in keys {
        assert !IsKept(items, accepts, key, i);
        ReportsAppend(all, dropped, i, report);
        DiagnoseIsCapped(all + Reports(dropped, report), report(i));
        diagnostics' := Diagnose(diagnostics', report(i));
      } else {
        assert IsKept(items, accepts, key, i);
        kept := kept + [items[i].value];
        keys := keys + {key(items[i].value)};
      }
    }
  }

  function AcceptsPolicy(ids: set<string>, compiles: string -> bool): Policy -> bool {
    p => ValidPolicy(p, compiles) && Known(p.selection, ids)
  }

  function KeptLoaders(raw: RawConfig): seq<Loader> {
    if raw.loaders.None? then [] else Kept(raw.loaders.value, ValidLoader, LoaderId, |raw.loaders.value|)
  }

  /** Exactly when filtering succeeds. */
  predicate Loadable(raw: RawConfig) {
    && raw.rootValid && !raw.unknownFields && raw.loaders.Some?
    && KeptLoaders(raw) != []
    && raw.fallback.Parsed? && ValidSelection(raw.fallback.value)
    && Known(raw.fallback.value, LoaderIds(KeptLoaders(raw)))
  }

  function PolicyItems(raw: RawConfig): seq<Raw<Policy>> {
    if raw.policies.Listed? then raw.policies.items else []
  }

  /** The configuration that remains, and everything that was dropped on the way. */
  function Filtered(raw: RawConfig, compiles: string -> bool): Config
    requires Loadable(raw)
  {
    var accepts := AcceptsPolicy(LoaderIds(KeptLoaders(raw)), compiles);
    Config(KeptLoaders(raw), raw.fallback.value, Kept(PolicyItems(raw), accepts, Pattern, |PolicyItems(raw)|))
  }

  function AllDiagnostics(raw: RawConfig, compiles: string -> bool): seq<Diagnostic>
    requires Loadable(raw)
  {
    var accepts := AcceptsPolicy(LoaderIds(KeptLoaders(raw)), compiles);
    Reports(Dropped(raw.loaders.value, ValidLoader, LoaderId, |raw.loaders.value|), LoaderReport)
    + (if raw.policies.NotAList? then [PolicyListInvalid] else [])
    + Reports(Dropped(PolicyItems(raw), accepts, Pattern, |PolicyItems(raw)|), PolicyReport)
  }

  method RuntimeSnapshot(raw: RawConfig, compiles: string -> bool)
    returns (r: Result<(Config, seq<Diagnostic>), ConfigError>)
    ensures r.Ok? <==> Loadable(raw)
    ensures r.Ok? ==> r.value.0 == Filtered(raw, compiles) && r.value.1 == Capped(AllDiagnostics(raw, compiles))
    ensures r.Ok? ==> StrictlyValid(r.value.0, compiles)
  {
    if !raw.rootValid { return Err(InvalidRoot); }
    if raw.unknownFields { return Err(UnknownFields); }
    if raw.loaders.None? { return Err(LoadersNotAList); }
    var loaders, diagnostics := KeepFirst(raw.loaders.value, ValidLoader, LoaderId, LoaderReport, [], []);
    ghost var loaderReports :=
      Reports(Dropped(raw.loaders.value, ValidLoader, LoaderId, |raw.loaders.value|), LoaderReport);
    assert [] + loaderReports == loaderReports;
    if loaders == [] { return Err(NoValidLoader); }
    if raw.fallback.Malformed? || !ValidSelection(raw.fallback.value) { return Err(InvalidFallback); }
    if !Known(raw.fallback.value, LoaderIds(loaders)) { return Err(UnavailableFallback); }
    ghost var all := loaderReports;
    if raw.policies.NotAList? {
      DiagnoseIsCapped(all, PolicyListInvalid);
      diagnostics := Diagnose(diagnostics, PolicyListInvalid);
      all := all + [PolicyListInvalid];
    }
    assert all == loaderReports + (if raw.policies.NotAList? then [PolicyListInvalid] else []);
    var policies;
    policies, diagnostics := KeepFirst(
      PolicyItems(raw), AcceptsPolicy(LoaderIds(loaders), compiles), Pattern, PolicyReport, diagnostics, all);
    FilteredIsStrict(raw, compiles);
    return Ok((Config(loaders, raw.fallback.value, policies), diagnostics));
  }

  // --- Tolerant refines strict -------------------------------------------

  /** Whatever was dropped, what remains satisfies every strict validator. */
  lemma FilteredIsStrict(raw: RawConfig, compiles: string -> bool)
    requires Loadable(raw)
    ensures StrictlyValid(Filtered(raw, compiles), compiles)
  {
    KeptIsValid(raw.loaders.value, ValidLoader, LoaderId, |raw.loaders.value|);
    KeptIsValid(
      PolicyItems(raw), AcceptsPolicy(LoaderIds(KeptLoaders(raw)), compiles), Pattern, |PolicyItems(raw)|);
  }

  /** The document a strictly valid configuration is written as. */
  function Document(c: Config): RawConfig {
    RawConfig(true, false, Some(AllParsed(c.loaders)), Parsed(c.fallback), Listed(AllParsed(c.policies)))
  }

  /** Strictly valid input comes back unchanged, with no diagnostics. */
  lemma StrictInputIsUnchanged(c: Config, compiles: string -> bool)
    requires StrictlyValid(c, compiles)
    ensures Loadable(Document(c))
    ensures Filtered(Document(c), compiles) == c
    ensures AllDiagnostics(Document(c), compiles) == []
  {
    NothingDropped(c.loaders, ValidLoader, LoaderId, |c.loaders|);
    assert c.loaders[..|c.loaders|] == c.loaders;
    NothingDropped(c.policies, AcceptsPolicy(LoaderIds(c.loaders), compiles), Pattern, |c.policies|);
    assert c.policies[..|c.policies|] == c.policies;
  }

  /** A load reports nothing exactly when it dropped nothing. */
  lemma SilentMeansComplete(raw: RawConfig, compiles: string -> bool)
    requires Loadable(raw)
    ensures Capped(AllDiagnostics(raw, compiles)) == [] <==>
              && !raw.policies.NotAList?
              && |Filtered(raw, compiles).loaders| == |raw.loaders.value|
              && |Filtered(raw, compiles).policies| == |PolicyItems(raw)|
  {
    DroppedMeaning(raw.loaders.value, ValidLoader, LoaderId, |raw.loaders.value|);
    DroppedMeaning(
      PolicyItems(raw), AcceptsPolicy(LoaderIds(KeptLoaders(raw)), compiles), Pattern, |PolicyItems(raw)|);
  }

  /** Filtering again changes nothing more. */
  lemma FilteringIsIdempotent(raw: RawConfig, compiles: string -> bool)
    requires Loadable(raw)
    ensures Loadable(Document(Filtered(raw, compiles)))
    ensures Filtered(Document(Filtered(raw, compiles)), compiles) == Filtered(raw, compiles)
  {
    FilteredIsStrict(raw, compiles);
    StrictInputIsUnchanged(Filtered(raw, compiles), compiles);
  }

  // --- The published snapshot --------------------------------------------

  /** The first policy whose pattern matches, else the fallback. */
  function PolicyFor(policies: seq<Policy>, fallback: Selection, matches: string -> bool): Selection {
    if policies == [] then fallback
    else if matches(policies[0].filename) then policies[0].selection
    else PolicyFor(policies[1..], fallback, matches)
  }

  lemma {:induction false} PolicyForIsFirstMatch(policies: seq<Policy>, fallback: Selection, matches: string -> bool)
    ensures (forall p | p in policies :: !matches(p.filename)) ==> PolicyFor(policies, fallback, matches) == fallback
    ensures forall i | 0 <= i < |policies| && matches(policies[i].filename)
                       && (forall j | 0 <= j < i :: !matches(policies[j].filename)) ::
              PolicyFor(policies, fallback, matches) == policies[i].selection
  {
    if policies != [] {
      PolicyForIsFirstMatch(policies[1..], fallback, matches);
      assert forall j | 0 < j < |policies| :: policies[j] == policies[1..][j - 1];
    }
  }

  /** The selection offers something, defaults to something it offers, and offers only usable loaders. */
  ghost predicate Resolves(s: Selection, loaders: seq<Loader>) {
    && s.defaultId in s.loaderIds
    && (forall i, j | 0 <= i < j < |s.loaderIds| :: s.loaderIds[i] != s.loaderIds[j])
    && forall id | id in s.loaderIds :: exists l :: l in loaders && l.id == id && |l.families| > 0
  }

  /** Whatever adapter is looked up, its selection resolves among the published loaders, none of which share an id. */
  lemma SelectionsResolve(c: Config, compiles: string -> bool)
    requires StrictlyValid(c, compiles)
    ensures Resolves(c.fallback, c.loaders)
    ensures forall p | p in c.policies :: compiles(p.filename) && Resolves(p.selection, c.loaders)
    ensures forall i, j | 0 <= i < j < |c.loaders| :: c.loaders[i].id != c.loaders[j].id
    ensures forall i, j | 0 <= i < j < |c.policies| :: c.policies[i].filename != c.policies[j].filename
  {
    KnownResolves(c.fallback, c.loaders);
    forall p | p in c.policies ensures compiles(p.filename) && Resolves(p.selection, c.loaders) {
      KnownResolves(p.selection, c.loaders);
    }
  }

  /** Among usable loaders, a selection resolves exactly when the strict validators accept it. */
  lemma KnownResolves(s: Selection, loaders: seq<Loader>)
    requires forall l | l in loaders :: ValidLoader(l)
    ensures Resolves(s, loaders) <==> ValidSelection(s) && Known(s, LoaderIds(loaders))
  {
    if ValidSelection(s) && Known(s, LoaderIds(loaders)) {
      forall id | id in s.loaderIds ensures exists l :: l in loaders && l.id == id && |l.families| > 0 {
        var l :| l in loaders && l.id == id;
        assert ValidLoader(l);
      }
    }
  }

  /** A report names what was dropped, and everything that was dropped is reported, the list itself included. */
  lemma ReportsNameTheDropped(raw: RawConfig, compiles: string -> bool, d: Diagnostic)
    requires Loadable(raw)
    ensures var accepts := AcceptsPolicy(LoaderIds(KeptLoaders(raw)), compiles);
            d in AllDiagnostics(raw, compiles) <==>
              match d
              case LoaderEntryInvalid(i) => i < |raw.loaders.value| && !IsKept(raw.loaders.value, ValidLoader, LoaderId, i)
              case PolicyListInvalid => raw.policies.NotAList?
              case PolicyEntryInvalid(i) => i < |PolicyItems(raw)| && !IsKept(PolicyItems(raw), accepts, Pattern, i)
  {
    var accepts := AcceptsPolicy(LoaderIds(KeptLoaders(raw)), compiles);
    var loaders := Dropped(raw.loaders.value, ValidLoader, LoaderId, |raw.loaders.value|);
    var policies := Dropped(PolicyItems(raw), accepts, Pattern, |PolicyItems(raw)|);
    DroppedMeaning(raw.loaders.value, ValidLoader, LoaderId, |raw.loaders.value|);
    DroppedMeaning(PolicyItems(raw), accepts, Pattern, |PolicyItems(raw)|);
    ReportsOf(loaders, LoaderReport, d);
    ReportsOf(policies, PolicyReport, d);
    assert forall i: nat :: LoaderReport(i) == LoaderEntryInvalid(i) && PolicyReport(i) == PolicyEntryInvalid(i);
  }

  lemma ReportsOf(indexes: seq<nat>, report: nat -> Diagnostic, d: Diagnostic)
    ensures d in Reports(indexes, report) <==> exists i :: i in indexes && report(i) == d
  {
    if i :| i in indexes && report(i) == d {
      var k :| 0 <= k < |indexes| && indexes[k] == i;
      assert Reports(indexes, report)[k] == d;
    }
  }

  class ConfigManager {
    var snapshot: Option<Config>
    var source: Option<string>
    var compiled: seq<Policy>
    var diagnostics: seq<Diagnostic>
    const compiles: string -> bool

    /** Published together: a strictly valid snapshot, its source and its compiled policies. */
    ghost predicate Valid()
      reads this
    {
      match snapshot
      case None => source.None? && compiled == [] && diagnostics == []
      case Some(c) => source.Some? && StrictlyValid(c, compiles) && compiled == c.policies && |diagnostics| <= MAX_DIAGNOSTICS
    }

    constructor (compiles: string -> bool)
      ensures Valid() && snapshot.None? && this.compiles == compiles
    {
      this.compiles := compiles;
      snapshot, source, compiled, diagnostics := None, None, [], [];
    }

    /**
     Load once: a later call returns the published snapshot for the same file, and fails
     for another; a failed load publishes nothing. `file` is the parsed document, if any.
     */
    method Initialize(path: string, file: Option<RawConfig>) returns (r: Result<Config, ConfigError>)
      requires Valid()
      modifies this
      ensures Valid()
      ensures old(snapshot).Some? ==>
                && snapshot == old(snapshot) && source == old(source)
                && compiled == old(compiled) && diagnostics == old(diagnostics)
                && r == if source == Some(path) then Ok(snapshot.value) else Err(InitializedElsewhere)
      ensures old(snapshot).None? ==> (r.Ok? <==> file.Some? && Loadable(file.value))
      ensures old(snapshot).None? && r.Ok? ==>
                && snapshot == Some(r.value) && source == Some(path)
                && r.value == Filtered(file.value, compiles)
                && diagnostics == Capped(AllDiagnostics(file.value, compiles))
      ensures old(snapshot).None? && r.Err? ==> snapshot.None?
    {
      if snapshot.Some? {
        if source != Some(path) {
          return Err(InitializedElsewhere);
        }
        return Ok(snapshot.value);
      }
      if file.None? {
        return Err(Unreadable);
      }
      var loaded := RuntimeSnapshot(file.value, compiles);
      if loaded.Err? {
        return Err(loaded.error);
      }
      source := Some(path);
      snapshot := Some(loaded.value.0);
      diagnostics := loaded.value.1;
      compiled := loaded.value.0.policies;
      return Ok(loaded.value.0);
    }

    /** The policy of one adapter file: `matches` is its name searched for each pattern. */
    method LoraLoaderPolicy(matches: string -> bool) returns (r: Result<Selection, ConfigError>)
      requires Valid()
      ensures snapshot.None? ==> r == Err(NotInitialized)
      ensures snapshot.Some? ==>
                r == Ok(PolicyFor(snapshot.value.policies, snapshot.value.fallback, matches))
      ensures r.Ok? ==> Resolves(r.value, snapshot.value.loaders)
    {
      if snapshot.None? {
        return Err(NotInitialized);
      }
      PolicyForIsFirstMatch(snapshot.value.policies, snapshot.value.fallback, matches);
      SelectionsResolve(snapshot.value, compiles);
      for i := 0 to |compiled|
        invariant forall j | 0 <= j < i :: !matches(compiled[j].filename)
      {
        if matches(compiled[i].filename) {
          assert compiled[i] in compiled;
          return Ok(compiled[i].selection);
        }
      }
      return Ok(snapshot.value.fallback);
    }
  }
}
