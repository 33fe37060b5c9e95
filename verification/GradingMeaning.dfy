/** What a run grades, re-grades and blocks on, over the fields of the run. */
module GradingMeaning {
  import opened Lists
  import opened Text
  import opened Grading

  // ---------------------------------------------------------------- which obligations are graded

  /** Some source file known for the resource is a changed file. */
  ghost predicate SourceChanged(run: Run, resourceId: string)
    requires run.changedFiles.Some?
  {
    && resourceId in run.sources
    && exists i :: 0 <= i < |run.sources[resourceId]| && run.sources[resourceId][i] in run.changedFiles.value
  }

  /** The diff and the selection leave this obligation in. */
  ghost predicate Chosen(run: Run, o: Obligation) {
    && (run.changedFiles.Some? ==> SourceChanged(run, o.resourceId))
    && (run.named.Some? ==> o.id in run.named.value)
  }

  lemma AnyChangedIs(files: seq<string>, changed: seq<string>)
    ensures AnyChanged(files, changed) <==> exists i :: 0 <= i < |files| && files[i] in changed
  {
    if f :| f in files && f in changed {
      var i :| 0 <= i < |files| && files[i] == f;
    }
  }

  lemma InScopeIs(run: Run, o: Obligation)
    ensures InScope(run, o) <==> Chosen(run, o)
  {
    if run.changedFiles.Some? && o.resourceId in run.sources {
      AnyChangedIs(run.sources[o.resourceId], run.changedFiles.value);
    }
  }

  // ---------------------------------------------------------------- how a verdict ends

  /** The baseline adopts the verdict: it neither passed nor was waived, and its fingerprint is in the receipt. */
  ghost predicate AdoptedByReceipt(rules: Rules, run: Run, v: Verdict) {
    && run.baseline.Some? && v.tier != Satisfied && v.tier != Waived
    && rules.fingerprint(v.obligation) in run.baseline.value.fingerprints
  }

  ghost function ReceiptReason(v: Verdict): string {
    "baselined:" + ADOPTED_AS + TierName(v.tier) + SHRINK_ONLY
  }

  /** A waiver in strict mode: blocking, with its text kept. */
  ghost function NoProof(v: Verdict, was: string): Verdict {
    Verdict(v.obligation, Missing, Some(STRICT_MODE + was + NOT_A_PROOF), v.witnessed, Some("ENFORCEMENT_UNTRUSTED"))
  }

  /** The verdict a run ends with, from the engine's own. */
  ghost function EndsAs(rules: Rules, run: Run, v: Verdict): Verdict {
    if AdoptedByReceipt(rules, run, v) then
      if run.strict && !run.baselineSurvivesStrict then NoProof(v, ReceiptReason(v))
      else Verdict(v.obligation, Waived, Some(ReceiptReason(v)), v.witnessed, v.cause)
    else if run.strict && v.tier == Waived then
      if v.reason.None? then NoProof(v, "waived")
      else if run.baselineSurvivesStrict && "baselined:" <= v.reason.value then v
      else NoProof(v, v.reason.value)
    else v
  }

  lemma RegradeIs(rules: Rules, run: Run, v: Verdict)
    ensures Regrade(rules, run, v) == EndsAs(rules, run, v)
  {
    if AdoptedByReceipt(rules, run, v) {
      ReasonBegins(v);
    }
  }

  lemma ReasonBegins(v: Verdict)
    ensures "baselined:" <= ReceiptReason(v)
    ensures ReceiptReason(v) == BASELINE_REASON + ADOPTED_AS + TierName(v.tier) + SHRINK_ONLY
  {
    assert ReceiptReason(v) == "baselined:" + (ADOPTED_AS + TierName(v.tier) + SHRINK_ONLY);
  }

  /** The positions of the graded obligations, in order. */
  ghost predicate GradedAt(run: Run, os: seq<Obligation>, idx: seq<nat>, vs: seq<Verdict>) {
    && |idx| == |vs|
    && (forall i, j | 0 <= i < j < |idx| :: idx[i] < idx[j])
    && (forall k | 0 <= k < |idx| ::
          idx[k] < |os| && Chosen(run, os[idx[k]]) && run.grade(os[idx[k]]) == Some(vs[k]))
    && (forall i | 0 <= i < |os| && Chosen(run, os[i]) && run.grade(os[i]).Some? :: i in idx)
  }

  lemma {:induction false} GradedPositions(run: Run, os: seq<Obligation>) returns (idx: seq<nat>)
    ensures GradedAt(run, os, idx, GradeAll(run.grade, Keep(o => InScope(run, o), os)))
  {
    if os == [] {
      idx := [];
    } else {
      var front, o := os[..|os| - 1], os[|os| - 1];
      var kept := Keep(o => InScope(run, o), front);
      idx := GradedPositions(run, front);
      InScopeIs(run, o);
      if InScope(run, o) {
        assert (kept + [o])[..|kept|] == kept;
        if run.grade(o).Some? {
          idx := idx + [|front|];
        }
      }
    }
  }

  /**
   * The verdicts of a run, completely: one for each obligation the diff and the selection leave in and the engine
   * grades, in the order of the obligations, each ending as baseline and strict mode say.
   */
  lemma VerdictsOfRun(rules: Rules, run: Run) returns (idx: seq<nat>)
    ensures |idx| == |FinalVerdicts(rules, run)| && forall i, j | 0 <= i < j < |idx| :: idx[i] < idx[j]
    ensures forall k | 0 <= k < |idx| ::
              && idx[k] < |run.obligations| && Chosen(run, run.obligations[idx[k]])
              && run.grade(run.obligations[idx[k]]).Some?
              && FinalVerdicts(rules, run)[k] == EndsAs(rules, run, run.grade(run.obligations[idx[k]]).value)
    ensures forall i | 0 <= i < |run.obligations| ::
              i in idx <==> Chosen(run, run.obligations[i]) && run.grade(run.obligations[i]).Some?
  {
    idx := GradedPositions(run, run.obligations);
    forall v
      ensures Regrade(rules, run, v) == EndsAs(rules, run, v)
    {
      RegradeIs(rules, run, v);
    }
  }

  // ---------------------------------------------------------------- which entries block

  /** What the adoption receipt knows a classification entry by. */
  ghost predicate KnownAs(e: Entry, id: string) {
    && (e.kind == ClassificationEntry || e.kind == UnclassifiedEntry)
    && if e.resourceId.Some? then id == e.resourceId.value else e.name.Some? && id == "name:" + e.name.value
  }

  /** The receipt's classification layer knows the entry. */
  ghost predicate Known(b: Baseline, e: Entry) {
    b.classification.Some? && exists id :: id in b.classification.value && KnownAs(e, id)
  }

  /** The receipt forgives the entry: by identity, or by fingerprint unless it is an unresolved call. */
  ghost predicate ForgivenByReceipt(rules: Rules, b: Baseline, e: Entry) {
    || Known(b, e)
    || (rules.entryFingerprint(e) in b.fingerprints
        && !(e.kind == FindingEntry && e.cause == Some(rules.unresolvedCall)))
  }

  /** The scope of the run keeps an entry of the caller. */
  ghost predicate KeptInScope(rules: Rules, run: Run, e: Entry) {
    || (e.cause.Some? && rules.businessCause(e.cause.value))
    || match run.named
       case Some(names) =>
         || (e.name.Some? && e.name.value in names)
         || (e.resourceId.Some?
             && exists o :: o in run.obligations && Chosen(run, o) && o.resourceId == e.resourceId.value)
       case None =>
         || run.changedFiles.None?
         || e.kind != UnclassifiedEntry || e.resourceId.None? || e.resourceId.value !in run.sources
         || SourceChanged(run, e.resourceId.value)
  }

  lemma ForgivenIs(rules: Rules, b: Baseline, e: Entry)
    ensures Forgiven(rules, b, e) <==> ForgivenByReceipt(rules, b, e)
  {
    if b.classification.Some? && ByIdentity(b, e) {
      assert KnownAs(e, Identity(e).value);
    }
  }

  lemma ScopedMembers(run: Run)
    ensures forall o :: o in Scoped(run) <==> o in run.obligations && Chosen(run, o)
  {
    KeepMembers(o => InScope(run, o), run.obligations);
    forall o
      ensures InScope(run, o) <==> Chosen(run, o)
    {
      InScopeIs(run, o);
    }
  }

  lemma EntryInScopeIs(rules: Rules, run: Run, e: Entry)
    ensures EntryInScope(rules, run, e) <==> KeptInScope(rules, run, e)
  {
    ScopedMembers(run);
    if run.changedFiles.Some? && e.resourceId.Some? && e.resourceId.value in run.sources {
      AnyChangedIs(run.sources[e.resourceId.value], run.changedFiles.value);
    }
  }

  /** Exactly which entries block a run in the end. */
  lemma EntriesOfRun(rules: Rules, run: Run, e: Entry)
    ensures e in FinalEntries(rules, run) <==>
            && (run.baseline.None? || !ForgivenByReceipt(rules, run.baseline.value, e))
            && (|| (e in run.entries && KeptInScope(rules, run, e))
                || e in run.evidenceBlocking
                || (run.named.None? && e in run.coverageBlocking)
                || (run.strict && e in run.strictBlocking))
  {
    FinalEntryMembers(rules, run, e);
    EntryInScopeIs(rules, run, e);
    if run.baseline.Some? {
      ForgivenIs(rules, run.baseline.value, e);
    }
  }

  /** The run blocks on an entry that stays, or on a verdict that neither passed nor was waived. */
  lemma WhenARunBlocks(rules: Rules, run: Run)
    ensures BlockingRun(rules, run) <==>
            || (exists e :: e in FinalEntries(rules, run))
            || (exists k :: 0 <= k < |FinalVerdicts(rules, run)|
                            && FinalVerdicts(rules, run)[k].tier != Satisfied
                            && FinalVerdicts(rules, run)[k].tier != Waived)
  {
    var es, vs := FinalEntries(rules, run), FinalVerdicts(rules, run);
    if es != [] {
      assert es[0] in es;
    }
    if v :| v in vs && Blocks(v.tier) {
      var k :| 0 <= k < |vs| && vs[k] == v;
    }
  }

  // ---------------------------------------------------------------- the counters

  ghost predicate Counted(rules: Rules, b: Baseline, v: Verdict) {
    v.tier != Satisfied && v.tier != Waived && rules.fingerprint(v.obligation) in b.fingerprints
  }

  ghost function AdoptedAt(rules: Rules, b: Baseline, vs: seq<Verdict>): set<nat> {
    set i: nat | i < |vs| && Counted(rules, b, vs[i])
  }

  ghost function UnwitnessedAt(rules: Rules, b: Baseline, vs: seq<Verdict>): set<nat> {
    set i: nat | i < |vs| && Counted(rules, b, vs[i]) && !vs[i].witnessed
  }

  ghost function ForgivenAt(rules: Rules, b: Baseline, es: seq<Entry>): set<nat> {
    set i: nat | i < |es| && ForgivenByReceipt(rules, b, es[i]) && !Known(b, es[i])
  }

  ghost predicate KnownIn(es: seq<Entry>, id: string) { exists i :: 0 <= i < |es| && KnownAs(es[i], id) }

  /** What the four counters count, by position. */
  lemma CountersOfRun(rules: Rules, b: Baseline, vs: seq<Verdict>, es: seq<Entry>, c: Counts)
    requires CountsAre(rules, b, vs, es, c)
    ensures c.obligations == |AdoptedAt(rules, b, vs)|
    ensures c.neverWitnessed == |UnwitnessedAt(rules, b, vs)|
    ensures c.blockingEntries == |ForgivenAt(rules, b, es)|
    ensures match b.classification
            case None => c.classificationBlocked == None
            case Some(ids) => c.classificationBlocked == Some(|set id | id in ids && KnownIn(es, id)|)
  {
    CountIsPositions(v => Adopted(rules, b, v), vs);
    assert Positions(v => Adopted(rules, b, v), vs) == AdoptedAt(rules, b, vs);
    CountIsPositions(v => Adopted(rules, b, v) && !v.witnessed, vs);
    assert Positions(v => Adopted(rules, b, v) && !v.witnessed, vs) == UnwitnessedAt(rules, b, vs);
    EntriesCounted(rules, b, es);
    if b.classification.Some? {
      IdentitiesCounted(b, es);
    }
  }

  lemma ByIdentityIs(b: Baseline, e: Entry)
    ensures ByIdentity(b, e) <==> Known(b, e)
  {
    if ByIdentity(b, e) {
      assert KnownAs(e, Identity(e).value);
    }
  }

  lemma EntriesCounted(rules: Rules, b: Baseline, es: seq<Entry>)
    ensures CountIf(e => ByFingerprint(rules, b, e), es) == |ForgivenAt(rules, b, es)|
  {
    CountIsPositions(e => ByFingerprint(rules, b, e), es);
    forall i: nat | i < |es|
      ensures ByFingerprint(rules, b, es[i]) <==> ForgivenByReceipt(rules, b, es[i]) && !Known(b, es[i])
    {
      ByIdentityIs(b, es[i]);
    }
    assert Positions(e => ByFingerprint(rules, b, e), es) == ForgivenAt(rules, b, es);
  }

  lemma IdentitiesCounted(b: Baseline, es: seq<Entry>)
    requires b.classification.Some?
    ensures AdoptedIdentities(b, es) == set id | id in b.classification.value && KnownIn(es, id)
  {
    forall id
      ensures id in AdoptedIdentities(b, es) <==> id in b.classification.value && KnownIn(es, id)
    {
      if id in AdoptedIdentities(b, es) {
        var e :| e in es && ByIdentity(b, e) && Identity(e).value == id;
        var i :| 0 <= i < |es| && es[i] == e;
        assert KnownAs(es[i], id);
      }
      if id in b.classification.value {
        if i :| 0 <= i < |es| && KnownAs(es[i], id) {
          assert es[i] in es && ByIdentity(b, es[i]) && Identity(es[i]).value == id;
        }
      }
    }
  }
}
