/** Grading a run: scoping, adoption-baseline forgiveness and strict re-grading. */
module Grading {
  import opened Lists
  import opened Text

  datatype Tier = Satisfied | Missing | Invalid | Unclassified | Unresolved | Stale | Waived

  datatype Obligation = Obligation(id: string, resourceId: string, contract: string, policyId: string)

  datatype Verdict =
    Verdict(obligation: Obligation, tier: Tier, reason: Option<string>, witnessed: bool, cause: Option<string>)

  datatype EntryKind = ClassificationEntry | UnclassifiedEntry | FindingEntry | OtherEntry

  datatype Entry =
    Entry(kind: EntryKind, resourceId: Option<string>, name: Option<string>, cause: Option<string>, detail: string)

  /** The adoption receipt; the classification layer may be missing altogether. */
  datatype Baseline = Baseline(fingerprints: set<string>, classification: Option<set<string>>)

  /** Fingerprints and the causes of declared business rules, which other packages define. */
  datatype Rules = Rules(
    fingerprint: Obligation -> string,
    entryFingerprint: Entry -> string,
    businessCause: string -> bool,
    unresolvedCall: string)

  predicate Blocks(t: Tier) { t != Satisfied && t != Waived }

  const BASELINE_REASON := "baselined:"

  // ---------------------------------------------------------------- the adoption baseline

  const ADOPTED_AS := " adopted as forgiven (was "

  const SHRINK_ONLY := "); baseline is shrink-only"

  const STRICT_MODE := "strict E2E mode: "

  const NOT_A_PROOF := " — a waiver is not proof and cannot authorize the change; "
    + "the obligation still requires its own witnessed evidence"

  function TierName(t: Tier): string {
    match t
    case Satisfied => "satisfied"
    case Missing => "missing"
    case Invalid => "invalid"
    case Unclassified => "unclassified"
    case Unresolved => "unresolved"
    case Stale => "stale"
    case Waived => "waived"
  }

  predicate Adopted(rules: Rules, b: Baseline, v: Verdict) {
    Blocks(v.tier) && rules.fingerprint(v.obligation) in b.fingerprints
  }

  function Forgive(rules: Rules, b: Baseline, v: Verdict): Verdict {
    if Adopted(rules, b, v) then
      v.(tier := Waived,
         reason := Some(BASELINE_REASON + ADOPTED_AS + TierName(v.tier) + SHRINK_ONLY))
    else v
  }

  function ForgiveAll(rules: Rules, b: Baseline, vs: seq<Verdict>): seq<Verdict> {
    seq(|vs|, i requires 0 <= i < |vs| => Forgive(rules, b, vs[i]))
  }

  /** The identity the classification layer adopts by. */
  function Identity(e: Entry): Option<string> {
    if e.kind != ClassificationEntry && e.kind != UnclassifiedEntry then None
    else if e.resourceId.Some? then e.resourceId
    else if e.name.Some? then Some("name:" + e.name.value)
    else None
  }

  predicate ByIdentity(b: Baseline, e: Entry) {
    Identity(e).Some? && b.classification.Some? && Identity(e).value in b.classification.value
  }

  /** The distinct identities the classification layer forgives. */
  function AdoptedIdentities(b: Baseline, es: seq<Entry>): set<string> {
    set e | e in es && ByIdentity(b, e) :: Identity(e).value
  }

  predicate ByFingerprint(rules: Rules, b: Baseline, e: Entry) {
    && !ByIdentity(b, e)
    && !(e.kind == FindingEntry && e.cause == Some(rules.unresolvedCall))
    && rules.entryFingerprint(e) in b.fingerprints
  }

  predicate Forgiven(rules: Rules, b: Baseline, e: Entry) { ByIdentity(b, e) || ByFingerprint(rules, b, e) }

  function Kept(rules: Rules, b: Baseline, es: seq<Entry>): seq<Entry> { Keep(e => !Forgiven(rules, b, e), es) }

  datatype Split =
    Split(kept: seq<Entry>, forgivenEntries: nat, forgivenClassifications: set<string>, classificationProvided: bool)

  method SplitBlockingByBaseline(rules: Rules, baseline: Option<Baseline>, blocking: seq<Entry>) returns (r: Split)
    ensures baseline.None? ==> r == Split(blocking, 0, {}, false)
    ensures baseline.Some? ==>
      && r.kept == Kept(rules, baseline.value, blocking)
      && r.forgivenEntries == CountIf(e => ByFingerprint(rules, baseline.value, e), blocking)
      && r.forgivenClassifications == AdoptedIdentities(baseline.value, blocking)
      && r.classificationProvided == baseline.value.classification.Some?
  {
    if baseline.None? { return Split(blocking, 0, {}, false); }
    var b := baseline.value;
    var classification := if b.classification.Some? then b.classification.value else {};
    if b.fingerprints == {} && classification == {} {
      NothingForgiven(rules, b, blocking);
      return Split(blocking, 0, {}, b.classification.Some?);
    }
    var kept, forgivenEntries, forgivenClassifications := [], 0, {};
    for i := 0 to |blocking|
      invariant kept == Kept(rules, b, blocking[..i])
      invariant forgivenEntries == CountIf(e => ByFingerprint(rules, b, e), blocking[..i])
      invariant forgivenClassifications == AdoptedIdentities(b, blocking[..i])
    {
      var entry := blocking[i];
      assert blocking[..i + 1] == blocking[..i] + [entry];
      assert blocking[..i + 1][..i] == blocking[..i];
      var identity := Identity(entry);
      if identity.Some? && identity.value in classification {
        forgivenClassifications := forgivenClassifications + {identity.value};
        continue;
      }
      if entry.kind == FindingEntry && entry.cause == Some(rules.unresolvedCall) {
        kept := kept + [entry];
        continue;
      }
      if rules.entryFingerprint(entry) in b.fingerprints {
        forgivenEntries := forgivenEntries + 1;
        continue;
      }
      kept := kept + [entry];
    }
    assert blocking[..|blocking|] == blocking;
    r := Split(kept, forgivenEntries, forgivenClassifications, b.classification.Some?);
  }

  lemma NothingForgiven(rules: Rules, b: Baseline, es: seq<Entry>)
    requires Empty(b)
    ensures Kept(rules, b, es) == es
    ensures Keep(e => ByFingerprint(rules, b, e), es) == []
    ensures forall e :: !ByIdentity(b, e)
  {
    KeepAll(e => !Forgiven(rules, b, e), es);
    KeepNone(e => ByFingerprint(rules, b, e), es);
  }

  predicate Empty(b: Baseline) { b.fingerprints == {} && (b.classification.Some? ==> b.classification.value == {}) }

  datatype Counts =
    Counts(obligations: nat, blockingEntries: nat, neverWitnessed: nat, classificationBlocked: Option<nat>)

  /** The counters of what a baseline forgives. */
  predicate CountsAre(rules: Rules, b: Baseline, vs: seq<Verdict>, es: seq<Entry>, c: Counts) {
    && c.obligations == CountIf(v => Adopted(rules, b, v), vs)
    && c.neverWitnessed == CountIf(v => Adopted(rules, b, v) && !v.witnessed, vs)
    && c.blockingEntries == CountIf(e => ByFingerprint(rules, b, e), es)
    && c.classificationBlocked == if b.classification.Some? then Some(|AdoptedIdentities(b, es)|) else None
  }

  method ApplyBaseline(rules: Rules, baseline: Option<Baseline>, verdicts0: seq<Verdict>, blocking0: seq<Entry>)
    returns (verdicts: seq<Verdict>, blocking: seq<Entry>, baselined: Option<Counts>)
    ensures baseline.None? ==> verdicts == verdicts0 && blocking == blocking0 && baselined == None
    ensures baseline.Some? ==>
      verdicts == ForgiveAll(rules, baseline.value, verdicts0) && blocking == Kept(rules, baseline.value, blocking0)
    ensures baselined.Some? ==>
      baseline.Some? && CountsAre(rules, baseline.value, verdicts0, blocking0, baselined.value)
    ensures baselined.None? <==> baseline.None? || Empty(baseline.value)
    ensures baselined.None? ==> verdicts == verdicts0 && blocking == blocking0
  {
    if baseline.None? { return verdicts0, blocking0, None; }
    var b := baseline.value;
    var classification := if b.classification.Some? then b.classification.value else {};
    if b.fingerprints == {} && classification == {} {
      NothingForgiven(rules, b, blocking0);
      assert ForgiveAll(rules, b, verdicts0) == verdicts0;
      return verdicts0, blocking0, None;
    }
    var obligations, neverWitnessed := 0, 0;
    verdicts := [];
    for i := 0 to |verdicts0|
      invariant verdicts == ForgiveAll(rules, b, verdicts0[..i])
      invariant obligations == CountIf(v => Adopted(rules, b, v), verdicts0[..i])
      invariant neverWitnessed == CountIf(v => Adopted(rules, b, v) && !v.witnessed, verdicts0[..i])
    {
      var entry := verdicts0[i];
      assert verdicts0[..i + 1][..i] == verdicts0[..i];
      if Blocks(entry.tier) && rules.fingerprint(entry.obligation) in b.fingerprints {
        obligations := obligations + 1;
        if !entry.witnessed { neverWitnessed := neverWitnessed + 1; }
        var reason := BASELINE_REASON + ADOPTED_AS + TierName(entry.tier) + SHRINK_ONLY;
        verdicts := verdicts + [entry.(tier := Waived, reason := Some(reason))];
      } else {
        verdicts := verdicts + [entry];
      }
    }
    assert verdicts0[..|verdicts0|] == verdicts0;
    var split := SplitBlockingByBaseline(rules, baseline, blocking0);
    blocking := split.kept;
    baselined := Some(Counts(obligations, split.forgivenEntries, neverWitnessed,
                             if split.classificationProvided then Some(|split.forgivenClassifications|) else None));
  }

  // ---------------------------------------------------------------- strict mode

  predicate FromBaseline(v: Verdict) { v.reason.Some? && BASELINE_REASON <= v.reason.value }

  function Strict(keepBaseline: bool, v: Verdict): Verdict {
    if v.tier != Waived || (keepBaseline && FromBaseline(v)) then v
    else
      var was := if v.reason.Some? then v.reason.value else "waived";
      v.(tier := Missing, cause := Some("ENFORCEMENT_UNTRUSTED"),
         reason := Some(STRICT_MODE + was + NOT_A_PROOF))
  }

  function StrictAll(keepBaseline: bool, vs: seq<Verdict>): seq<Verdict> {
    seq(|vs|, i requires 0 <= i < |vs| => Strict(keepBaseline, vs[i]))
  }

  // ---------------------------------------------------------------- scope

  type Sources = map<string, seq<string>>

  predicate AnyChanged(files: seq<string>, changed: seq<string>) { exists f :: f in files && f in changed }

  /** `check --changed`: only obligations whose resource has a changed source. */
  predicate InDiff(sources: Sources, changed: Option<seq<string>>, o: Obligation) {
    changed.Some? ==> o.resourceId in sources && AnyChanged(sources[o.resourceId], changed.value)
  }

  predicate InSelection(named: Option<seq<string>>, o: Obligation) { named.Some? ==> o.id in named.value }

  predicate Business(rules: Rules, e: Entry) { e.cause.Some? && rules.businessCause(e.cause.value) }

  /** A blocking entry a changed-file set is held responsible for. */
  predicate Attributable(rules: Rules, sources: Sources, changed: seq<string>, e: Entry) {
    if Business(rules, e) then true
    else if e.kind == UnclassifiedEntry && e.resourceId.Some? then
      e.resourceId.value in sources ==> AnyChanged(sources[e.resourceId.value], changed)
    else true
  }

  method ScopeBlocking(rules: Rules, blocking: seq<Entry>, changed: seq<string>, sources: Sources)
    returns (kept: seq<Entry>)
    ensures kept == Keep(e => Attributable(rules, sources, changed, e), blocking)
  {
    kept := [];
    for i := 0 to |blocking|
      invariant kept == Keep(e => Attributable(rules, sources, changed, e), blocking[..i])
    {
      var entry := blocking[i];
      assert blocking[..i + 1][..i] == blocking[..i];
      if entry.cause.Some? && rules.businessCause(entry.cause.value) {
        kept := kept + [entry];
        continue;
      }
      if entry.kind == UnclassifiedEntry && entry.resourceId.Some? {
        if entry.resourceId.value !in sources {
          kept := kept + [entry];
          continue;
        }
        if AnyChanged(sources[entry.resourceId.value], changed) { kept := kept + [entry]; }
        continue;
      }
      kept := kept + [entry];
    }
    assert blocking[..|blocking|] == blocking;
  }

  predicate Selected(rules: Rules, named: seq<string>, graded: seq<Obligation>, e: Entry) {
    || Business(rules, e)
    || (e.name.Some? && e.name.value in named)
    || (e.resourceId.Some? && exists o :: o in graded && o.resourceId == e.resourceId.value)
  }

  // ---------------------------------------------------------------- the run

  datatype Run = Run(
    obligations: seq<Obligation>,
    /** The grade of one obligation on its own; `None` when the engine returns no entry. */
    grade: Obligation -> Option<Verdict>,
    sources: Sources,
    changedFiles: Option<seq<string>>,
    named: Option<seq<string>>,
    entries: seq<Entry>,
    evidenceBlocking: seq<Entry>,
    coverageBlocking: seq<Entry>,
    strictBlocking: seq<Entry>,
    baseline: Option<Baseline>,
    strict: bool,
    baselineSurvivesStrict: bool)

  predicate InScope(run: Run, o: Obligation) { InDiff(run.sources, run.changedFiles, o) && InSelection(run.named, o) }

  function Scoped(run: Run): seq<Obligation> { Keep(o => InScope(run, o), run.obligations) }

  function GradeAll(grade: Obligation -> Option<Verdict>, os: seq<Obligation>): seq<Verdict> {
    if os == [] then []
    else
      var front, v := GradeAll(grade, os[..|os| - 1]), grade(os[|os| - 1]);
      if v.Some? then front + [v.value] else front
  }

  /** Baseline forgiveness first, strict re-grading after it. */
  function Regrade(rules: Rules, run: Run, v: Verdict): Verdict {
    var forgiven := if run.baseline.Some? then Forgive(rules, run.baseline.value, v) else v;
    if run.strict then Strict(run.baselineSurvivesStrict, forgiven) else forgiven
  }

  function RegradeAll(rules: Rules, run: Run, vs: seq<Verdict>): seq<Verdict> {
    seq(|vs|, i requires 0 <= i < |vs| => Regrade(rules, run, vs[i]))
  }

  function FinalVerdicts(rules: Rules, run: Run): seq<Verdict> {
    RegradeAll(rules, run, GradeAll(run.grade, Scoped(run)))
  }

  predicate EntryInScope(rules: Rules, run: Run, e: Entry) {
    match run.named
    case None => run.changedFiles.Some? ==> Attributable(rules, run.sources, run.changedFiles.value, e)
    case Some(named) => Selected(rules, named, Scoped(run), e)
  }

  function RawEntries(rules: Rules, run: Run): seq<Entry> {
    Keep(e => EntryInScope(rules, run, e), run.entries)
    + run.evidenceBlocking
    + (if run.named.None? then run.coverageBlocking else [])
    + (if run.strict then run.strictBlocking else [])
  }

  function FinalEntries(rules: Rules, run: Run): seq<Entry> {
    if run.baseline.Some? then Kept(rules, run.baseline.value, RawEntries(rules, run)) else RawEntries(rules, run)
  }

  predicate AnyBlocks(vs: seq<Verdict>) { exists v :: v in vs && Blocks(v.tier) }

  predicate BlockingRun(rules: Rules, run: Run) {
    FinalEntries(rules, run) != [] || AnyBlocks(FinalVerdicts(rules, run))
  }

  method GradeScoped(run: Run) returns (verdicts: seq<Verdict>)
    ensures verdicts == GradeAll(run.grade, Scoped(run))
  {
    var scoped := Scoped(run);
    verdicts := [];
    for i := 0 to |scoped|
      invariant verdicts == GradeAll(run.grade, scoped[..i])
    {
      assert scoped[..i + 1][..i] == scoped[..i];
      var entry := run.grade(scoped[i]);
      if entry.None? { continue; }
      verdicts := verdicts + [entry.value];
    }
    assert scoped[..|scoped|] == scoped;
  }

  method CollectBlocking(rules: Rules, run: Run) returns (blocking: seq<Entry>)
    ensures blocking == RawEntries(rules, run)
  {
    var scopedBlocking := Keep(e => EntryInScope(rules, run, e), run.entries);
    if run.named.None? && run.changedFiles.Some? {
      scopedBlocking := ScopeBlocking(rules, run.entries, run.changedFiles.value, run.sources);
      SameKeep(e => Attributable(rules, run.sources, run.changedFiles.value, e), e => EntryInScope(rules, run, e),
               run.entries);
    }
    blocking := scopedBlocking + run.evidenceBlocking
                + (if run.named.None? then run.coverageBlocking else [])
                + (if run.strict then run.strictBlocking else []);
  }

  method EvaluateRun(rules: Rules, run: Run)
    returns (verdicts: seq<Verdict>, blocking: seq<Entry>, baselined: Option<Counts>, notGraded: int, blockingRun: bool)
    ensures verdicts == FinalVerdicts(rules, run)
    ensures blocking == FinalEntries(rules, run)
    ensures baselined.None? <==> run.baseline.None? || Empty(run.baseline.value)
    ensures baselined.Some? ==>
      CountsAre(rules, run.baseline.value, GradeAll(run.grade, Scoped(run)), RawEntries(rules, run), baselined.value)
    ensures notGraded == |run.obligations| - |Scoped(run)|
    ensures blockingRun <==> BlockingRun(rules, run)
  {
    var graded := GradeScoped(run);
    blocking := CollectBlocking(rules, run);
    verdicts, blocking, baselined := ApplyBaseline(rules, run.baseline, graded, blocking);
    if run.strict { verdicts := StrictAll(run.baselineSurvivesStrict, verdicts); }
    assert verdicts == RegradeAll(rules, run, graded);
    notGraded := |run.obligations| - |Scoped(run)|;
    blockingRun := blocking != [] || exists v :: v in verdicts && Blocks(v.tier);
  }

  // ---------------------------------------------------------------- what forgiveness does

  /** Kept, adopted-by-identity and adopted-by-fingerprint entries partition the blocking list. */
  lemma SplitPartitions(rules: Rules, b: Baseline, es: seq<Entry>)
    ensures multiset(Kept(rules, b, es)) + multiset(Keep(e => ByIdentity(b, e), es))
            + multiset(Keep(e => ByFingerprint(rules, b, e), es)) == multiset(es)
    ensures |Kept(rules, b, es)| + CountIf(e => ByIdentity(b, e), es) + CountIf(e => ByFingerprint(rules, b, e), es)
         == |es|
  {
    var rest := Keep(e => !ByIdentity(b, e), es);
    KeepSplits(e => ByIdentity(b, e), e => !ByIdentity(b, e), es);
    KeepSplits(e => !Forgiven(rules, b, e), e => Forgiven(rules, b, e), rest);
    KeepMembers(e => !ByIdentity(b, e), es);
    KeepTwice(e => !ByIdentity(b, e), e => !Forgiven(rules, b, e), e => !Forgiven(rules, b, e), es);
    KeepTwice(e => !ByIdentity(b, e), e => Forgiven(rules, b, e), e => ByFingerprint(rules, b, e), es);
  }

  /** `small` adopts nothing that `large` does not. */
  ghost predicate Within(small: Option<Baseline>, large: Option<Baseline>) {
    small.Some? ==>
      && large.Some?
      && small.value.fingerprints <= large.value.fingerprints
      && (small.value.classification.Some? ==>
            large.value.classification.Some? && small.value.classification.value <= large.value.classification.value)
  }

  ghost predicate SameButBaseline(run: Run, run': Run) { run' == run.(baseline := run'.baseline) }

  lemma SmallerRegrade(rules: Rules, run: Run, run': Run, v: Verdict)
    requires SameButBaseline(run, run') && Within(run.baseline, run'.baseline)
    requires Blocks(Regrade(rules, run', v).tier)
    ensures Blocks(Regrade(rules, run, v).tier)
  {
    RegradeBlocks(rules, run, v);
    RegradeBlocks(rules, run', v);
  }

  lemma SmallerVerdicts(rules: Rules, run: Run, run': Run)
    requires SameButBaseline(run, run') && Within(run.baseline, run'.baseline)
    ensures |FinalVerdicts(rules, run')| == |FinalVerdicts(rules, run)|
    ensures forall i | 0 <= i < |FinalVerdicts(rules, run')| ::
              Blocks(FinalVerdicts(rules, run')[i].tier) ==> Blocks(FinalVerdicts(rules, run)[i].tier)
  {
    SameScope(run, run');
    var graded := GradeAll(run.grade, Scoped(run));
    forall i | 0 <= i < |graded| && Blocks(Regrade(rules, run', graded[i]).tier)
      ensures Blocks(Regrade(rules, run, graded[i]).tier)
    {
      SmallerRegrade(rules, run, run', graded[i]);
    }
  }

  /** A smaller baseline never blocks less: entry by entry, verdict by verdict, and as a run. */
  lemma SmallerBaselineBlocksMore(rules: Rules, run: Run, run': Run)
    requires SameButBaseline(run, run') && Within(run.baseline, run'.baseline)
    ensures multiset(FinalEntries(rules, run')) <= multiset(FinalEntries(rules, run))
    ensures |FinalVerdicts(rules, run')| == |FinalVerdicts(rules, run)|
    ensures forall i | 0 <= i < |FinalVerdicts(rules, run')| ::
              Blocks(FinalVerdicts(rules, run')[i].tier) ==> Blocks(FinalVerdicts(rules, run)[i].tier)
    ensures BlockingRun(rules, run') ==> BlockingRun(rules, run)
  {
    SmallerKeepsMoreEntries(rules, run, run');
    SmallerVerdicts(rules, run, run');
    RunFollows(FinalVerdicts(rules, run), FinalVerdicts(rules, run'),
               FinalEntries(rules, run), FinalEntries(rules, run'));
  }

  lemma RunFollows(vs: seq<Verdict>, vs': seq<Verdict>, es: seq<Entry>, es': seq<Entry>)
    requires |vs'| == |vs| && forall i | 0 <= i < |vs'| :: Blocks(vs'[i].tier) ==> Blocks(vs[i].tier)
    requires multiset(es') <= multiset(es)
    ensures es' != [] || AnyBlocks(vs') ==> es != [] || AnyBlocks(vs)
  {
    if es' != [] {
      assert es'[0] in multiset(es');
    } else if AnyBlocks(vs') {
      var i :| 0 <= i < |vs'| && Blocks(vs'[i].tier);
      assert vs[i] in vs;
    }
  }

  lemma SameScope(run: Run, run': Run)
    requires run'.obligations == run.obligations && run'.sources == run.sources
    requires run'.changedFiles == run.changedFiles && run'.named == run.named
    ensures Scoped(run') == Scoped(run)
  {
    SameKeep(o => InScope(run, o), o => InScope(run', o), run.obligations);
  }

  lemma SmallerKeepsMoreEntries(rules: Rules, run: Run, run': Run)
    requires SameButBaseline(run, run') && Within(run.baseline, run'.baseline)
    ensures multiset(FinalEntries(rules, run')) <= multiset(FinalEntries(rules, run))
  {
    SameScope(run, run');
    SameKeep(e => EntryInScope(rules, run, e), e => EntryInScope(rules, run', e), run.entries);
    var raw := RawEntries(rules, run);
    assert RawEntries(rules, run') == raw;
    if run'.baseline.Some? {
      var large := run'.baseline.value;
      if run.baseline.Some? {
        var small := run.baseline.value;
        KeepFewer(e => !Forgiven(rules, large, e), e => !Forgiven(rules, small, e), raw);
      } else {
        KeepAll(e => true, raw);
        KeepFewer(e => !Forgiven(rules, large, e), e => true, raw);
      }
    }
  }

  function Regraded(before: seq<Verdict>, after: seq<Verdict>): set<nat>
    requires |after| == |before|
  {
    set i: nat | i < |before| && after[i].tier != before[i].tier
  }

  /** The counted obligations are exactly the verdicts whose tier changed; they carry the baseline's reason. */
  lemma CountIsRegraded(rules: Rules, b: Baseline, vs: seq<Verdict>)
    ensures CountIf(v => Adopted(rules, b, v), vs)
         == |Regraded(vs, ForgiveAll(rules, b, vs))|
    ensures forall i | 0 <= i < |vs| && ForgiveAll(rules, b, vs)[i] != vs[i] ::
              && Blocks(vs[i].tier)
              && ForgiveAll(rules, b, vs)[i].tier == Waived && FromBaseline(ForgiveAll(rules, b, vs)[i])
  {
    var p := v => Adopted(rules, b, v);
    CountIsPositions(p, vs);
    assert Regraded(vs, ForgiveAll(rules, b, vs)) == Positions(p, vs);
  }

  /** Forgiving twice is forgiving once. */
  lemma ForgivingTwice(rules: Rules, b: Baseline, vs: seq<Verdict>, es: seq<Entry>)
    ensures ForgiveAll(rules, b, ForgiveAll(rules, b, vs)) == ForgiveAll(rules, b, vs)
    ensures Kept(rules, b, Kept(rules, b, es)) == Kept(rules, b, es)
  {
    KeepTwice(e => !Forgiven(rules, b, e), e => !Forgiven(rules, b, e), e => !Forgiven(rules, b, e), es);
  }

  // ---------------------------------------------------------------- strict mode and the baseline

  predicate AdoptedIn(rules: Rules, run: Run, v: Verdict) {
    run.baseline.Some? && Adopted(rules, run.baseline.value, v)
  }

  /** Which obligations block in the end, as a function of how the engine graded them. */
  predicate BlocksFinally(rules: Rules, run: Run, v: Verdict) {
    if !run.strict then Blocks(v.tier) && !AdoptedIn(rules, run, v)
    else if run.baselineSurvivesStrict then
      (Blocks(v.tier) && !AdoptedIn(rules, run, v)) || (v.tier == Waived && !FromBaseline(v))
    else Blocks(v.tier) || v.tier == Waived
  }

  lemma RegradeBlocks(rules: Rules, run: Run, v: Verdict)
    ensures Blocks(Regrade(rules, run, v).tier) <==> BlocksFinally(rules, run, v)
    ensures Regrade(rules, run, v).obligation == v.obligation
  {
  }

  /**
   * Without the survival flag a strict run blocks on everything that blocked or was waived, whatever the baseline;
   * with the flag, what the baseline adopted stays forgiven and every other waiver blocks.
   */
  lemma WhatBlocks(rules: Rules, run: Run, i: nat)
    requires i < |GradeAll(run.grade, Scoped(run))|
    ensures |FinalVerdicts(rules, run)| == |GradeAll(run.grade, Scoped(run))|
    ensures FinalVerdicts(rules, run)[i].obligation == GradeAll(run.grade, Scoped(run))[i].obligation
    ensures Blocks(FinalVerdicts(rules, run)[i].tier) <==>
              BlocksFinally(rules, run, GradeAll(run.grade, Scoped(run))[i])
  {
    RegradeBlocks(rules, run, GradeAll(run.grade, Scoped(run))[i]);
  }

  /** Under strict mode without the survival flag, every baseline gives the same blocking obligations. */
  lemma StrictIgnoresBaseline(rules: Rules, run: Run, run': Run)
    requires run.strict && !run.baselineSurvivesStrict && SameButBaseline(run, run')
    ensures |FinalVerdicts(rules, run)| == |FinalVerdicts(rules, run')|
    ensures forall i | 0 <= i < |FinalVerdicts(rules, run)| ::
              && FinalVerdicts(rules, run)[i].obligation == FinalVerdicts(rules, run')[i].obligation
              && (Blocks(FinalVerdicts(rules, run)[i].tier) <==> Blocks(FinalVerdicts(rules, run')[i].tier))
  {
    SameScope(run, run');
    forall i | 0 <= i < |FinalVerdicts(rules, run)|
      ensures FinalVerdicts(rules, run)[i].obligation == FinalVerdicts(rules, run')[i].obligation
      ensures Blocks(FinalVerdicts(rules, run)[i].tier) <==> Blocks(FinalVerdicts(rules, run')[i].tier)
    {
      WhatBlocks(rules, run, i);
      WhatBlocks(rules, run', i);
    }
  }

  // ---------------------------------------------------------------- scoping commutes with grading

  ghost predicate GradesItsOwn(grade: Obligation -> Option<Verdict>) {
    forall o :: grade(o).Some? ==> grade(o).value.obligation == o
  }

  /** The same run over the whole repository. */
  function Unscoped(run: Run): Run { run.(changedFiles := None, named := None) }

  lemma {:induction false} GradingCommutes(run: Run, os: seq<Obligation>)
    requires GradesItsOwn(run.grade)
    ensures GradeAll(run.grade, Keep(o => InScope(run, o), os))
         == Keep((v: Verdict) => InScope(run, v.obligation), GradeAll(run.grade, os))
  {
    if os != [] {
      var front, last := os[..|os| - 1], os[|os| - 1];
      GradingCommutes(run, front);
      if InScope(run, last) {
        var kept := Keep(o => InScope(run, o), front);
        assert (kept + [last])[..|kept|] == kept;
      }
      if run.grade(last).Some? {
        var graded := GradeAll(run.grade, front);
        assert (graded + [run.grade(last).value])[..|graded|] == graded;
      }
    }
  }

  lemma RegradeSnoc(rules: Rules, run: Run, vs: seq<Verdict>, v: Verdict)
    ensures RegradeAll(rules, run, vs + [v]) == RegradeAll(rules, run, vs) + [Regrade(rules, run, v)]
  {
  }

  lemma {:induction false} RegradingCommutes(rules: Rules, run: Run, run': Run, vs: seq<Verdict>)
    requires run'.baseline == run.baseline && run'.strict == run.strict
    requires run'.baselineSurvivesStrict == run.baselineSurvivesStrict
    ensures RegradeAll(rules, run, Keep((v: Verdict) => InScope(run, v.obligation), vs))
         == Keep((v: Verdict) => InScope(run, v.obligation), RegradeAll(rules, run', vs))
  {
    if vs != [] {
      var front, last := vs[..|vs| - 1], vs[|vs| - 1];
      var p := (v: Verdict) => InScope(run, v.obligation);
      RegradingCommutes(rules, run, run', front);
      RegradeSnoc(rules, run', front, last);
      assert front + [last] == vs;
      RegradeBlocks(rules, run', last);
      KeepSnoc(p, RegradeAll(rules, run', front), Regrade(rules, run', last));
      RegradeSnoc(rules, run, Keep(p, front), last);
      assert Regrade(rules, run, last) == Regrade(rules, run', last);
    }
  }

  /** The verdicts of a diff-scoped or named run are the full run's verdicts for the scoped obligations, in order. */
  lemma ScopingCommutes(rules: Rules, run: Run)
    requires GradesItsOwn(run.grade)
    ensures FinalVerdicts(rules, run)
         == Keep((v: Verdict) => InScope(run, v.obligation), FinalVerdicts(rules, Unscoped(run)))
  {
    var full := Unscoped(run);
    KeepAll(o => InScope(full, o), run.obligations);
    assert Scoped(full) == run.obligations;
    GradingCommutes(run, run.obligations);
    RegradingCommutes(rules, run, full, GradeAll(run.grade, run.obligations));
  }

  lemma FinalEntryMembers(rules: Rules, run: Run, e: Entry)
    ensures e in FinalEntries(rules, run) <==>
            e in RawEntries(rules, run) && (run.baseline.None? || !Forgiven(rules, run.baseline.value, e))
    ensures e in RawEntries(rules, run) <==>
            || (e in run.entries && EntryInScope(rules, run, e))
            || e in run.evidenceBlocking
            || (run.named.None? && e in run.coverageBlocking)
            || (run.strict && e in run.strictBlocking)
  {
    if run.baseline.Some? {
      KeepMembers(e => !Forgiven(rules, run.baseline.value, e), RawEntries(rules, run));
    }
    KeepMembers(e => EntryInScope(rules, run, e), run.entries);
  }

  /** Whatever is in scope of a narrowed run is a blocking entry of the full run, as often. */
  lemma NarrowedRawEntries(rules: Rules, run: Run)
    ensures multiset(RawEntries(rules, run)) <= multiset(RawEntries(rules, Unscoped(run)))
  {
    var full := Unscoped(run);
    KeepAll(e => EntryInScope(rules, full, e), run.entries);
    KeepAll(e => true, run.entries);
    KeepFewer(e => EntryInScope(rules, run, e), e => true, run.entries);
  }

  lemma KeepSub(p: Entry -> bool, a: seq<Entry>, b: seq<Entry>)
    requires multiset(a) <= multiset(b)
    ensures multiset(Keep(p, a)) <= multiset(Keep(p, b))
  {
    forall x: Entry
      ensures multiset(Keep(p, a))[x] <= multiset(Keep(p, b))[x]
    {
      KeepCount(p, a, x);
      KeepCount(p, b, x);
    }
  }

  lemma {:induction false} KeepCount(p: Entry -> bool, s: seq<Entry>, x: Entry)
    ensures multiset(Keep(p, s))[x] == if p(x) then multiset(s)[x] else 0
  {
    if s != [] {
      var front, last := s[..|s| - 1], s[|s| - 1];
      KeepCount(p, front, x);
      assert s == front + [last];
    }
  }

  /** A narrowed run blocks on no entry the full run does not block on, and only where the full run blocks too. */
  lemma NarrowedBlocksLess(rules: Rules, run: Run)
    requires GradesItsOwn(run.grade)
    ensures multiset(FinalEntries(rules, run)) <= multiset(FinalEntries(rules, Unscoped(run)))
    ensures BlockingRun(rules, run) ==> BlockingRun(rules, Unscoped(run))
  {
    var full := Unscoped(run);
    NarrowedRawEntries(rules, run);
    if run.baseline.Some? {
      KeepSub(e => !Forgiven(rules, run.baseline.value, e), RawEntries(rules, run), RawEntries(rules, full));
    }
    if FinalEntries(rules, run) != [] {
      assert FinalEntries(rules, run)[0] in multiset(FinalEntries(rules, full));
    } else if AnyBlocks(FinalVerdicts(rules, run)) {
      var v :| v in FinalVerdicts(rules, run) && Blocks(v.tier);
      ScopingCommutes(rules, run);
      KeepMembers((v: Verdict) => InScope(run, v.obligation), FinalVerdicts(rules, full));
    }
  }

  /** No diff and no selection scopes a declared business rule or an evidence blocker away; only the baseline can. */
  lemma NeverScopedAway(rules: Rules, run: Run, e: Entry)
    requires (e in run.entries && Business(rules, e)) || e in run.evidenceBlocking
    ensures e in FinalEntries(rules, run) <==> run.baseline.None? || !Forgiven(rules, run.baseline.value, e)
  {
    FinalEntryMembers(rules, run, e);
  }

  /** So evidence blockers can be waived: whatever such an entry is, a baseline holding its fingerprint drops it. */
  lemma EvidenceCanBeForgiven(rules: Rules, run: Run, e: Entry)
    requires e in run.evidenceBlocking && !(e.kind == FindingEntry && e.cause == Some(rules.unresolvedCall))
    ensures var adopted := run.(baseline := Some(Baseline({rules.entryFingerprint(e)}, None)));
      e !in FinalEntries(rules, adopted) && e in FinalEntries(rules, run.(baseline := None))
  {
    NeverScopedAway(rules, run.(baseline := Some(Baseline({rules.entryFingerprint(e)}, None))), e);
    NeverScopedAway(rules, run.(baseline := None), e);
  }
}
