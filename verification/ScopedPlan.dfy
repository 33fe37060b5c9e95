/** The slice of tests and obligations a run over a changed-file set must certify. */
module ScopedPlan {
  import opened Text
  import opened Sorting
  import opened ProjectClosure

  datatype Origin = Sidecar | Native | Inferred

  datatype Instance = Instance(file: string, titlePath: seq<string>)

  datatype Binding = Binding(origin: Origin, instances: seq<Instance>)

  /** The bindings the mapping resolver has for one obligation id. */
  datatype Group = Group(obligationId: string, bindings: seq<Binding>)

  datatype Obligation = Obligation(id: string, resourceId: string, contract: string, policyId: string)

  datatype CatalogEntry = CatalogEntry(row: Row, playwright: bool, informational: bool)

  datatype Input = Input(
    catalog: seq<CatalogEntry>,
    groups: seq<Group>,
    obligations: seq<Obligation>,
    sources: map<string, seq<string>>,
    changedFiles: seq<string>,
    forgiven: Option<set<string>>,
    fingerprint: Obligation -> string,
    runnerKey: (string, seq<string>) -> string)

  datatype Plan = Plan(
    plannedRows: seq<Row>,
    affected: seq<Obligation>,
    coveredFingerprints: seq<string>,
    unclaimed: seq<string>,
    requiredFiles: seq<string>,
    adopted: seq<string>)

  function IdKey(o: Obligation): seq<int> { Units(o.id) }

  function Order(s: string): seq<int> { Units(s) }

  // ---------------------------------------------------------------- the expected set

  /** Every catalog row the runner can plan, in catalog order. */
  function Plannable(catalog: seq<CatalogEntry>): seq<Row> {
    if catalog == [] then []
    else
      var front, e := Plannable(catalog[..|catalog| - 1]), catalog[|catalog| - 1];
      if e.playwright && !e.informational then front + [e.row] else front
  }

  function ExpectedSet(catalog: seq<CatalogEntry>): seq<Row> { SortOn(KeyOf, Plannable(catalog)) }

  method PlanExpectedSet(catalog: seq<CatalogEntry>) returns (rows: seq<Row>)
    ensures rows == ExpectedSet(catalog)
  {
    rows := [];
    for i := 0 to |catalog|
      invariant rows == Plannable(catalog[..i])
    {
      assert catalog[..i + 1][..i] == catalog[..i];
      var e := catalog[i];
      if !e.playwright { continue; }
      if e.informational { continue; }
      rows := rows + [e.row];
    }
    assert catalog[..|catalog|] == catalog;
    rows := SortOn(KeyOf, rows);
  }

  lemma {:induction false} PlannableMembers(catalog: seq<CatalogEntry>)
    ensures forall row :: row in Plannable(catalog) <==>
              exists e :: e in catalog && e.playwright && !e.informational && e.row == row
  {
    if catalog != [] {
      var front, e := catalog[..|catalog| - 1], catalog[|catalog| - 1];
      PlannableMembers(front);
      assert catalog == front + [e];
    }
  }

  // ---------------------------------------------------------------- affected obligations

  predicate Changed(input: Input, file: string) { file in input.changedFiles }

  /** A changed file is among the sources of the obligation's resource. */
  predicate Touched(input: Input, o: Obligation) {
    o.resourceId in input.sources && exists f :: f in input.sources[o.resourceId] && Changed(input, f)
  }

  predicate Declared(b: Binding) { b.origin == Sidecar || b.origin == Native }

  /** A changed test file declares a claim for the group's obligation. */
  predicate ChangedClaim(input: Input, g: Group) {
    exists b :: b in g.bindings && Declared(b) && exists i :: i in b.instances && Changed(input, i.file)
  }

  function TouchedOnes(input: Input, obligations: seq<Obligation>): seq<Obligation> {
    if obligations == [] then []
    else
      var front, o := TouchedOnes(input, obligations[..|obligations| - 1]), obligations[|obligations| - 1];
      if Touched(input, o) then front + [o] else front
  }

  function FirstWithId(obligations: seq<Obligation>, id: string): Option<Obligation> {
    if obligations == [] then None
    else if obligations[0].id == id then Some(obligations[0])
    else FirstWithId(obligations[1..], id)
  }

  function Ids(obligations: seq<Obligation>): set<string> { set o | o in obligations :: o.id }

  /** One more group looked at: its obligation joins unless its id is there already. */
  function Join1(input: Input, affected: seq<Obligation>, g: Group): seq<Obligation> {
    if g.obligationId in Ids(affected) || !ChangedClaim(input, g) then affected
    else
      match FirstWithId(input.obligations, g.obligationId)
      case None => affected
      case Some(o) => affected + [o]
  }

  function AffectedBy(input: Input, groups: seq<Group>): seq<Obligation> {
    if groups == [] then TouchedOnes(input, input.obligations)
    else Join1(input, AffectedBy(input, groups[..|groups| - 1]), groups[|groups| - 1])
  }

  function Affected(input: Input): seq<Obligation> { SortOn(IdKey, AffectedBy(input, input.groups)) }

  method DeclaresChangedClaim(input: Input, g: Group) returns (declares: bool)
    ensures declares == ChangedClaim(input, g)
  {
    for i := 0 to |g.bindings|
      invariant forall k | 0 <= k < i :: Declared(g.bindings[k]) ==>
                  forall x | x in g.bindings[k].instances :: !Changed(input, x.file)
    {
      var b := g.bindings[i];
      if !Declared(b) { continue; }
      for j := 0 to |b.instances|
        invariant forall k | 0 <= k < j :: !Changed(input, b.instances[k].file)
      {
        if b.instances[j].file in input.changedFiles { return true; }
      }
    }
    return false;
  }

  method FindAffected(input: Input) returns (affected: seq<Obligation>)
    ensures affected == Affected(input)
  {
    affected := TouchedOnes(input, input.obligations);
    var affectedIds := Ids(affected);
    for i := 0 to |input.groups|
      invariant affected == AffectedBy(input, input.groups[..i])
      invariant affectedIds == Ids(affected)
    {
      assert input.groups[..i + 1][..i] == input.groups[..i];
      var group := input.groups[i];
      if group.obligationId in affectedIds { continue; }
      var declares := DeclaresChangedClaim(input, group);
      if declares {
        var obligation := FirstWithId(input.obligations, group.obligationId);
        if obligation.Some? {
          FirstHasId(input.obligations, group.obligationId);
          affected := affected + [obligation.value];
          affectedIds := affectedIds + {obligation.value.id};
        }
      }
    }
    assert input.groups[..|input.groups|] == input.groups;
    affected := SortOn(IdKey, affected);
  }

  lemma {:induction false} FirstHasId(obligations: seq<Obligation>, id: string)
    ensures var r := FirstWithId(obligations, id);
      && (r.Some? ==> r.value in obligations && r.value.id == id)
      && (r.None? <==> id !in Ids(obligations))
  {
    if obligations != [] {
      assert obligations == [obligations[0]] + obligations[1..];
      FirstHasId(obligations[1..], id);
    }
  }

  // ---------------------------------------------------------------- testable claims

  /** Runner key to logical key; a later catalog entry wins. */
  function KeyMap(input: Input, catalog: seq<CatalogEntry>): map<string, string> {
    if catalog == [] then map[]
    else
      var e := catalog[|catalog| - 1];
      KeyMap(input, catalog[..|catalog| - 1])[input.runnerKey(e.row.file, e.row.titlePath) := e.row.logicalKey]
  }

  /** Logical key to entry; a later catalog entry wins. */
  function EntryMap(catalog: seq<CatalogEntry>): map<string, CatalogEntry> {
    if catalog == [] then map[]
    else
      var e := catalog[|catalog| - 1];
      EntryMap(catalog[..|catalog| - 1])[e.row.logicalKey := e]
  }

  function BindingMap(groups: seq<Group>): map<string, seq<Binding>> {
    if groups == [] then map[]
    else
      var g := groups[|groups| - 1];
      BindingMap(groups[..|groups| - 1])[g.obligationId := g.bindings]
  }

  /** The catalog entry a mapped test instance still stands for. */
  function Resolve(input: Input, i: Instance): Option<CatalogEntry> {
    var keys := KeyMap(input, input.catalog);
    var key := input.runnerKey(i.file, i.titlePath);
    if key !in keys then None
    else
      var entries := EntryMap(input.catalog);
      if keys[key] in entries then Some(entries[keys[key]]) else None
  }

  function BindingsOf(input: Input, id: string): seq<Binding> {
    var m := BindingMap(input.groups);
    if id in m then m[id] else []
  }

  /** A declared binding of this obligation resolves to a test in this file. */
  ghost predicate ClaimedIn(input: Input, id: string, file: string) {
    exists b, i :: b in BindingsOf(input, id) && Declared(b) && i in b.instances
                   && Resolve(input, i).Some? && Resolve(input, i).value.row.file == file
  }

  ghost predicate Claimed(input: Input, id: string) { exists file :: ClaimedIn(input, id, file) }

  ghost predicate Required(input: Input, file: string) {
    exists o :: o in Affected(input) && ClaimedIn(input, o.id, file)
  }

  predicate Forgiven(input: Input, o: Obligation) {
    input.forgiven.Some? && input.fingerprint(o) in input.forgiven.value
  }

  ghost function IdsWithout(input: Input, obligations: seq<Obligation>, forgiven: bool): seq<string> {
    if obligations == [] then []
    else
      var front, o := IdsWithout(input, obligations[..|obligations| - 1], forgiven), obligations[|obligations| - 1];
      if !Claimed(input, o.id) && Forgiven(input, o) == forgiven then front + [o.id] else front
  }

  /** The files claimed through the bindings of one obligation are added. */
  method FilesOf(input: Input, id: string, files0: set<string>) returns (testable: bool, files: set<string>)
    ensures forall f :: f in files <==> f in files0 || ClaimedIn(input, id, f)
    ensures testable <==> Claimed(input, id)
  {
    var bindings := BindingsOf(input, id);
    files, testable := files0, false;
    ghost var seen: set<string> := {};
    for i := 0 to |bindings|
      invariant files == files0 + seen && (testable <==> seen != {})
      invariant forall f | f in seen :: ClaimedIn(input, id, f)
      invariant forall k, x | 0 <= k < i && Declared(bindings[k]) && x in bindings[k].instances
                              && Resolve(input, x).Some? :: Resolve(input, x).value.row.file in seen
    {
      var b := bindings[i];
      if !Declared(b) { continue; }
      for j := 0 to |b.instances|
        invariant files == files0 + seen && (testable <==> seen != {})
        invariant forall f | f in seen :: ClaimedIn(input, id, f)
        invariant forall k, x | 0 <= k < i && Declared(bindings[k]) && x in bindings[k].instances
                                && Resolve(input, x).Some? :: Resolve(input, x).value.row.file in seen
        invariant forall k | 0 <= k < j :: Resolve(input, b.instances[k]).Some? ==>
                    Resolve(input, b.instances[k]).value.row.file in seen
      {
        var entry := Resolve(input, b.instances[j]);
        if entry.None? { continue; }
        testable := true;
        files := files + {entry.value.row.file};
        seen := seen + {entry.value.row.file};
      }
    }
  }

  /** `[...set].sort(compareStrings)` */
  method SortedSet(s: set<string>) returns (r: seq<string>)
    ensures StrictlySorted(Order, r)
    ensures forall x :: x in r <==> x in s
  {
    var left := s;
    r := [];
    while left != {}
      invariant left <= s
      invariant forall x :: x in r <==> x in s && x !in left
      invariant DistinctKeys(Order, r)
      decreases left
    {
      var x :| x in left;
      NewIsDistinct(r, x);
      left := left - {x};
      r := r + [x];
    }
    SortIsSorted(Order, r);
    SortIsStrict(Order, r);
    r := SortOn(Order, r);
  }

  lemma NewIsDistinct(r: seq<string>, x: string)
    requires DistinctKeys(Order, r) && x !in r
    ensures DistinctKeys(Order, r + [x])
  {
    forall i | 0 <= i < |r|
      ensures Order(r[i]) != Order(x)
    {
      if Order(r[i]) == Order(x) {
        UnitsInjective(r[i], x);
      }
    }
  }

  // ---------------------------------------------------------------- the plan

  function RowsIn(rows: seq<Row>, files: set<string>): seq<Row> {
    if rows == [] then []
    else
      var front, row := RowsIn(rows[..|rows| - 1], files), rows[|rows| - 1];
      if row.file in files then front + [row] else front
  }

  ghost predicate FilesAre(input: Input, files: seq<string>) {
    StrictlySorted(Order, files) && forall f :: f in files <==> Required(input, f)
  }

  ghost predicate CoveredAre(input: Input, covered: seq<string>) {
    && StrictlySorted(Order, covered)
    && forall f :: f in covered <==> exists o :: o in Affected(input) && input.fingerprint(o) == f
  }

  /** What the planner returns; every part is determined. */
  ghost predicate IsPlan(input: Input, plan: Plan) {
    && plan.affected == Affected(input)
    && FilesAre(input, plan.requiredFiles)
    && CoveredAre(input, plan.coveredFingerprints)
    && plan.plannedRows == RowsIn(ExpectedSet(input.catalog), set f | f in plan.requiredFiles)
    && plan.unclaimed == IdsWithout(input, plan.affected, false)
    && plan.adopted == IdsWithout(input, plan.affected, true)
  }

  lemma PlanIsDetermined(input: Input, p: Plan, q: Plan)
    requires IsPlan(input, p) && IsPlan(input, q)
    ensures p == q
  {
    StrictlySortedUnique(Order, p.requiredFiles, q.requiredFiles);
    StrictlySortedUnique(Order, p.coveredFingerprints, q.coveredFingerprints);
  }

  /** The claims of the first `n` affected obligations are looked at. */
  ghost predicate SortedOut(input: Input, affected: seq<Obligation>, n: nat, files: set<string>,
                            unclaimed: seq<string>, adopted: seq<string>) {
    && n <= |affected|
    && (forall f :: f in files <==> exists k :: 0 <= k < n && ClaimedIn(input, affected[k].id, f))
    && unclaimed == IdsWithout(input, affected[..n], false)
    && adopted == IdsWithout(input, affected[..n], true)
  }

  /** The files of one more affected obligation are looked at. */
  lemma OneMoreFile(input: Input, affected: seq<Obligation>, n: nat, files0: set<string>, files: set<string>)
    requires n < |affected|
    requires forall f :: f in files0 <==> exists k :: 0 <= k < n && ClaimedIn(input, affected[k].id, f)
    requires forall f :: f in files <==> f in files0 || ClaimedIn(input, affected[n].id, f)
    ensures forall f :: f in files <==> exists k :: 0 <= k < n + 1 && ClaimedIn(input, affected[k].id, f)
  {
  }

  lemma OneMoreId(input: Input, affected: seq<Obligation>, n: nat, forgiven: bool)
    requires n < |affected|
    ensures var o, front := affected[n], IdsWithout(input, affected[..n], forgiven);
      IdsWithout(input, affected[..n + 1], forgiven)
      == if !Claimed(input, o.id) && Forgiven(input, o) == forgiven then front + [o.id] else front
  {
    assert affected[..n + 1][..n] == affected[..n];
  }

  method SortOutOne(input: Input, affected: seq<Obligation>, n: nat, files0: set<string>, unclaimed0: seq<string>,
                    adopted0: seq<string>)
    returns (files: set<string>, unclaimed: seq<string>, adopted: seq<string>)
    requires n < |affected| && SortedOut(input, affected, n, files0, unclaimed0, adopted0)
    ensures SortedOut(input, affected, n + 1, files, unclaimed, adopted)
  {
    files, unclaimed, adopted := files0, unclaimed0, adopted0;
    var obligation := affected[n];
    var testable;
    testable, files := FilesOf(input, obligation.id, files);
    OneMoreFile(input, affected, n, files0, files);
    OneMoreId(input, affected, n, false);
    OneMoreId(input, affected, n, true);
    if testable {
    } else if Forgiven(input, obligation) {
      adopted := adopted + [obligation.id];
    } else {
      unclaimed := unclaimed + [obligation.id];
    }
  }

  method PlanScopedExpectedSet(input: Input) returns (plan: Plan)
    ensures IsPlan(input, plan)
  {
    var affected := FindAffected(input);
    var files, unclaimed, adopted := {}, [], [];
    for i := 0 to |affected|
      invariant SortedOut(input, affected, i, files, unclaimed, adopted)
    {
      files, unclaimed, adopted := SortOutOne(input, affected, i, files, unclaimed, adopted);
    }
    assert affected[..|affected|] == affected;
    var requiredFiles := SortedSet(files);
    RequiredAre(input, affected, files);
    var expected := PlanExpectedSet(input.catalog);
    assert files == set f | f in requiredFiles;
    var plannedRows := RowsIn(expected, files);
    var covered := SortedSet(set o | o in affected :: input.fingerprint(o));
    plan := Plan(plannedRows, affected, covered, unclaimed, requiredFiles, adopted);
  }

  lemma RequiredAre(input: Input, affected: seq<Obligation>, files: set<string>)
    requires affected == Affected(input)
    requires forall f :: f in files <==> exists k :: 0 <= k < |affected| && ClaimedIn(input, affected[k].id, f)
    ensures forall f :: f in files <==> Required(input, f)
  {
    forall f
      ensures f in files <==> Required(input, f)
    {
      if f in files {
        var k :| 0 <= k < |affected| && ClaimedIn(input, affected[k].id, f);
        assert affected[k] in Affected(input);
      }
      if Required(input, f) {
        var o :| o in Affected(input) && ClaimedIn(input, o.id, f);
        var k :| 0 <= k < |affected| && affected[k] == o;
        assert ClaimedIn(input, affected[k].id, f);
      }
    }
  }

  // ---------------------------------------------------------------- who is affected

  /** Some obligation with this id is touched by its sources, or a changed test file claims the id. */
  ghost predicate AffectedId(input: Input, id: string) {
    || (exists o :: o in input.obligations && o.id == id && Touched(input, o))
    || (id in Ids(input.obligations) && exists g :: g in input.groups && g.obligationId == id && ChangedClaim(input, g))
  }

  ghost predicate AffectedIdBy(input: Input, groups: seq<Group>, id: string) {
    || (exists o :: o in input.obligations && o.id == id && Touched(input, o))
    || (id in Ids(input.obligations) && exists g :: g in groups && g.obligationId == id && ChangedClaim(input, g))
  }

  lemma {:induction false} TouchedMembers(input: Input, obligations: seq<Obligation>)
    ensures forall o :: o in TouchedOnes(input, obligations) <==> o in obligations && Touched(input, o)
  {
    if obligations != [] {
      TouchedMembers(input, obligations[..|obligations| - 1]);
      assert obligations == obligations[..|obligations| - 1] + [obligations[|obligations| - 1]];
    }
  }

  /** Every affected obligation is one of the run's, and is touched or is the first with a claimed id. */
  lemma {:induction false} AffectedMembers(input: Input, groups: seq<Group>, o: Obligation)
    requires o in AffectedBy(input, groups)
    ensures o in input.obligations
    ensures Touched(input, o) || exists g :: g in groups && g.obligationId == o.id && ChangedClaim(input, g)
  {
    if groups == [] {
      TouchedMembers(input, input.obligations);
    } else {
      var front, g := groups[..|groups| - 1], groups[|groups| - 1];
      assert groups == front + [g];
      if o in AffectedBy(input, front) {
        AffectedMembers(input, front, o);
      } else {
        FirstHasId(input.obligations, g.obligationId);
        assert g in groups && g.obligationId == o.id && ChangedClaim(input, g);
      }
    }
  }

  lemma {:induction false} AffectedHolds(input: Input, groups: seq<Group>, id: string)
    ensures AffectedIdBy(input, groups, id) ==> id in Ids(AffectedBy(input, groups))
  {
    if AffectedIdBy(input, groups, id) {
      if groups == [] {
        TouchedMembers(input, input.obligations);
      } else {
        var front, g := groups[..|groups| - 1], groups[|groups| - 1];
        AffectedHolds(input, front, id);
        assert groups == front + [g];
        FirstHasId(input.obligations, g.obligationId);
        var before := AffectedBy(input, front);
        assert Ids(before) <= Ids(Join1(input, before, g)) by {
          assert forall o | o in before :: o in Join1(input, before, g);
        }
        if !AffectedIdBy(input, front, id) && id !in Ids(before) {
          var o := FirstWithId(input.obligations, g.obligationId).value;
          assert (before + [o])[|before|] == o;
        }
      }
    }
  }

  /** The affected ids, whatever the order of groups and however often an id occurs. */
  lemma AffectedIds(input: Input, id: string)
    ensures id in Ids(Affected(input)) <==> AffectedId(input, id)
  {
    SortIsSorted(IdKey, AffectedBy(input, input.groups));
    AffectedHolds(input, input.groups, id);
    if id in Ids(Affected(input)) {
      var o :| o in Affected(input) && o.id == id;
      AffectedMembers(input, input.groups, o);
    }
  }

  ghost predicate UniqueIds(input: Input) {
    forall o, o' | o in input.obligations && o' in input.obligations && o.id == o'.id :: o == o'
  }

  lemma AffectedAre(input: Input, o: Obligation)
    requires UniqueIds(input)
    ensures o in Affected(input) <==> o in input.obligations && AffectedId(input, o.id)
  {
    SortIsSorted(IdKey, AffectedBy(input, input.groups));
    AffectedIds(input, o.id);
    if o in Affected(input) {
      AffectedMembers(input, input.groups, o);
    }
    if o in input.obligations && AffectedId(input, o.id) {
      var o' :| o' in Affected(input) && o'.id == o.id;
      AffectedMembers(input, input.groups, o');
    }
  }

  // ---------------------------------------------------------------- claimed, adopted, unclaimed

  ghost function Those(input: Input, obligations: seq<Obligation>): seq<string> {
    if obligations == [] then []
    else
      var front, o := Those(input, obligations[..|obligations| - 1]), obligations[|obligations| - 1];
      if Claimed(input, o.id) then front + [o.id] else front
  }

  function IdList(obligations: seq<Obligation>): seq<string> {
    seq(|obligations|, i requires 0 <= i < |obligations| => obligations[i].id)
  }

  /** Claimed, adopted and unclaimed entries together are the affected ids, each as often as it is affected. */
  lemma {:induction false} ThreeWaySplit(input: Input, obligations: seq<Obligation>)
    ensures multiset(IdList(obligations))
         == multiset(Those(input, obligations)) + multiset(IdsWithout(input, obligations, true))
            + multiset(IdsWithout(input, obligations, false))
  {
    if obligations != [] {
      var front, o := obligations[..|obligations| - 1], obligations[|obligations| - 1];
      ThreeWaySplit(input, front);
      assert IdList(obligations) == IdList(front) + [o.id];
    }
  }

  lemma {:induction false} WithoutMembers(input: Input, obligations: seq<Obligation>, forgiven: bool, id: string)
    ensures id in IdsWithout(input, obligations, forgiven) <==>
            exists o :: o in obligations && o.id == id && !Claimed(input, id) && Forgiven(input, o) == forgiven
  {
    if obligations != [] {
      var front, o := obligations[..|obligations| - 1], obligations[|obligations| - 1];
      WithoutMembers(input, front, forgiven, id);
      assert obligations == front + [o];
    }
  }

  /** Every affected obligation is exactly one of claimed, adopted and unclaimed. */
  lemma ExactlyOne(input: Input, plan: Plan, o: Obligation)
    requires IsPlan(input, plan) && o in plan.affected
    ensures Claimed(input, o.id) ==> o.id !in plan.adopted && o.id !in plan.unclaimed
    ensures !Claimed(input, o.id) ==> if Forgiven(input, o) then o.id in plan.adopted else o.id in plan.unclaimed
    ensures UniqueIds(input) ==> !(o.id in plan.adopted && o.id in plan.unclaimed)
  {
    WithoutMembers(input, plan.affected, true, o.id);
    WithoutMembers(input, plan.affected, false, o.id);
    SortIsSorted(IdKey, AffectedBy(input, input.groups));
    forall x | x in plan.affected
      ensures x in input.obligations
    {
      AffectedMembers(input, input.groups, x);
    }
  }

  lemma {:induction false} RowsInMembers(rows: seq<Row>, files: set<string>)
    ensures forall row :: row in RowsIn(rows, files) <==> row in rows && row.file in files
  {
    if rows != [] {
      RowsInMembers(rows[..|rows| - 1], files);
      assert rows == rows[..|rows| - 1] + [rows[|rows| - 1]];
    }
  }

  /** A planned row is a plannable catalog row of a required file, and the other way round. */
  lemma PlannedAre(input: Input, plan: Plan, row: Row)
    requires IsPlan(input, plan)
    ensures row in plan.plannedRows <==>
            Required(input, row.file)
            && exists e :: e in input.catalog && e.playwright && !e.informational && e.row == row
  {
    PlannableMembers(input.catalog);
    SortIsSorted(KeyOf, Plannable(input.catalog));
    RowsInMembers(ExpectedSet(input.catalog), set f | f in plan.requiredFiles);
  }

  lemma {:induction false} EntryMapHolds(catalog: seq<CatalogEntry>, key: string)
    ensures key in EntryMap(catalog) ==>
              EntryMap(catalog)[key] in catalog && EntryMap(catalog)[key].row.logicalKey == key
    ensures (exists e :: e in catalog && e.row.logicalKey == key) ==> key in EntryMap(catalog)
  {
    if catalog != [] {
      EntryMapHolds(catalog[..|catalog| - 1], key);
      assert catalog == catalog[..|catalog| - 1] + [catalog[|catalog| - 1]];
    }
  }

  lemma {:induction false} KeyMapHolds(input: Input, catalog: seq<CatalogEntry>, key: string)
    ensures key in KeyMap(input, catalog) ==>
              exists e :: e in catalog && input.runnerKey(e.row.file, e.row.titlePath) == key
                          && e.row.logicalKey == KeyMap(input, catalog)[key]
    ensures (exists e :: e in catalog && input.runnerKey(e.row.file, e.row.titlePath) == key) ==>
              key in KeyMap(input, catalog)
  {
    if catalog != [] {
      KeyMapHolds(input, catalog[..|catalog| - 1], key);
      assert catalog == catalog[..|catalog| - 1] + [catalog[|catalog| - 1]];
    }
  }

  /** An instance resolves exactly when the current catalog still enumerates its runner key. */
  lemma ResolvesWhenEnumerated(input: Input, i: Instance)
    ensures Resolve(input, i).Some? <==>
            exists e :: e in input.catalog
                        && input.runnerKey(e.row.file, e.row.titlePath) == input.runnerKey(i.file, i.titlePath)
    ensures Resolve(input, i).Some? ==> Resolve(input, i).value in input.catalog
  {
    var key := input.runnerKey(i.file, i.titlePath);
    KeyMapHolds(input, input.catalog, key);
    if key in KeyMap(input, input.catalog) {
      EntryMapHolds(input.catalog, KeyMap(input, input.catalog)[key]);
    }
  }

  /** A claimed affected obligation has a required file, and every plannable row of that file is planned. */
  lemma ClaimedIsPlanned(input: Input, plan: Plan, o: Obligation) returns (file: string)
    requires IsPlan(input, plan) && o in plan.affected && Claimed(input, o.id)
    ensures file in plan.requiredFiles && ClaimedIn(input, o.id, file)
    ensures forall e | e in input.catalog && e.row.file == file && e.playwright && !e.informational ::
              e.row in plan.plannedRows
    ensures exists e :: e in input.catalog && e.row.file == file
  {
    file :| ClaimedIn(input, o.id, file);
    var b, i :| b in BindingsOf(input, o.id) && Declared(b) && i in b.instances
                && Resolve(input, i).Some? && Resolve(input, i).value.row.file == file;
    ResolvesWhenEnumerated(input, i);
    assert Required(input, file);
    forall e | e in input.catalog && e.row.file == file && e.playwright && !e.informational
      ensures e.row in plan.plannedRows
    {
      PlannedAre(input, plan, e.row);
    }
  }

  /** A planned row of a file that claims the obligation. */
  ghost predicate HasPlannedRow(input: Input, plan: Plan, id: string) {
    exists row :: row in plan.plannedRows && ClaimedIn(input, id, row.file)
  }

  /** A claiming file with a test the supervised runner can plan. */
  ghost predicate HasPlannableClaim(input: Input, id: string) {
    exists e :: e in input.catalog && e.playwright && !e.informational && ClaimedIn(input, id, e.row.file)
  }

  /**
   * Exactly when an affected obligation has a planned row: a claiming file has a test the runner can plan. Any catalog
   * entry makes a claim count, so a claimed obligation may have no planned row (`ClaimedWithoutRow`).
   */
  lemma PlannedIffPlannable(input: Input, plan: Plan, o: Obligation)
    requires IsPlan(input, plan) && o in plan.affected
    ensures HasPlannedRow(input, plan, o.id) <==> HasPlannableClaim(input, o.id)
    ensures HasPlannableClaim(input, o.id) ==> Claimed(input, o.id)
  {
    if row :| row in plan.plannedRows && ClaimedIn(input, o.id, row.file) {
      PlannedAre(input, plan, row);
    }
    if e :| e in input.catalog && e.playwright && !e.informational && ClaimedIn(input, o.id, e.row.file) {
      PlannedAre(input, plan, e.row);
    }
  }

  /** One obligation, its resource changed, mapped to one test of a runner that plans nothing here. */
  function OtherRunner(): Input {
    Input([CatalogEntry(Row("k", None, "t.py", ["t"]), false, false)],
          [Group("o", [Binding(Sidecar, [Instance("t.py", ["t"])])])],
          [Obligation("o", "r", "c", "p")], map["r" := ["a.py"]], ["a.py"], None,
          (o: Obligation) => o.id, (file: string, titlePath: seq<string>) => file)
  }

  /** It is claimed, neither adopted nor unclaimed, and nothing is planned. */
  lemma ClaimedWithoutRow(plan: Plan)
    requires IsPlan(OtherRunner(), plan)
    ensures "o" in Ids(plan.affected) && Claimed(OtherRunner(), "o")
    ensures plan.adopted == [] && plan.unclaimed == [] && plan.plannedRows == []
  {
    var input := OtherRunner();
    var o := input.obligations[0];
    OtherRunnerClaims();
    assert input.sources[o.resourceId][0] == "a.py" && Changed(input, "a.py") && Touched(input, o);
    AffectedIds(input, "o");
    OtherRunnerKeeps(input, plan.affected);
    assert input.catalog[..0] == [];
    assert Plannable(input.catalog) == [];
    assert ExpectedSet(input.catalog) == [];
  }

  lemma OtherRunnerClaims()
    ensures Claimed(OtherRunner(), "o")
  {
    var input := OtherRunner();
    var i := Instance("t.py", ["t"]);
    var b := Binding(Sidecar, [i]);
    assert input.groups[..0] == [] && input.catalog[..0] == [];
    assert BindingsOf(input, "o") == [b] && b in BindingsOf(input, "o");
    assert i in b.instances;
    assert Resolve(input, i) == Some(input.catalog[0]);
    assert ClaimedIn(input, "o", "t.py");
  }

  lemma {:induction false} OtherRunnerKeeps(input: Input, affected: seq<Obligation>)
    requires input == OtherRunner() && forall o | o in affected :: Claimed(input, o.id)
    ensures IdsWithout(input, affected, true) == [] && IdsWithout(input, affected, false) == []
  {
    if affected != [] {
      OtherRunnerKeeps(input, affected[..|affected| - 1]);
    }
  }

  // ---------------------------------------------------------------- more changed files

  lemma MoreChangedMoreAffected(input: Input, more: seq<string>, id: string)
    requires forall f | f in input.changedFiles :: f in more
    requires AffectedId(input, id)
    ensures AffectedId(input.(changedFiles := more), id)
  {
    var input' := input.(changedFiles := more);
    if o :| o in input.obligations && o.id == id && Touched(input, o) {
      assert Touched(input', o);
    } else {
      var g :| g in input.groups && g.obligationId == id && ChangedClaim(input, g);
      assert ChangedClaim(input', g);
    }
  }

  lemma SameClaims(input: Input, more: seq<string>, id: string, file: string)
    ensures ClaimedIn(input.(changedFiles := more), id, file) <==> ClaimedIn(input, id, file)
  {
    var input' := input.(changedFiles := more);
    assert BindingsOf(input', id) == BindingsOf(input, id);
    forall i: Instance
      ensures Resolve(input', i) == Resolve(input, i)
    {
      SameKeyMap(input, input', input.catalog);
    }
  }

  lemma {:induction false} SameKeyMap(input: Input, input': Input, catalog: seq<CatalogEntry>)
    requires input'.runnerKey == input.runnerKey
    ensures KeyMap(input', catalog) == KeyMap(input, catalog)
  {
    if catalog != [] {
      SameKeyMap(input, input', catalog[..|catalog| - 1]);
    }
  }

  lemma RequiredGrows(input: Input, more: seq<string>, file: string)
    requires forall f | f in input.changedFiles :: f in more
    requires Required(input, file)
    ensures Required(input.(changedFiles := more), file)
  {
    var input' := input.(changedFiles := more);
    var o :| o in Affected(input) && ClaimedIn(input, o.id, file);
    AffectedIds(input, o.id);
    MoreChangedMoreAffected(input, more, o.id);
    AffectedIds(input', o.id);
    var o' :| o' in Affected(input') && o'.id == o.id;
    SameClaims(input, more, o.id, file);
  }

  /** A larger changed set affects, requires and plans at least as much. */
  lemma PlanGrowsWithChanges(input: Input, more: seq<string>, plan: Plan, plan': Plan)
    requires forall f | f in input.changedFiles :: f in more
    requires IsPlan(input, plan) && IsPlan(input.(changedFiles := more), plan')
    ensures Ids(plan.affected) <= Ids(plan'.affected)
    ensures forall f | f in plan.requiredFiles :: f in plan'.requiredFiles
    ensures forall row | row in plan.plannedRows :: row in plan'.plannedRows
    ensures UniqueIds(input) ==> forall o | o in plan.affected :: o in plan'.affected
    ensures UniqueIds(input) ==> forall f | f in plan.coveredFingerprints :: f in plan'.coveredFingerprints
  {
    var input' := input.(changedFiles := more);
    forall id | id in Ids(plan.affected)
      ensures id in Ids(plan'.affected)
    {
      AffectedIds(input, id);
      MoreChangedMoreAffected(input, more, id);
      AffectedIds(input', id);
    }
    forall f | f in plan.requiredFiles
      ensures f in plan'.requiredFiles
    {
      RequiredGrows(input, more, f);
    }
    forall row | row in plan.plannedRows
      ensures row in plan'.plannedRows
    {
      PlannedAre(input, plan, row);
      RequiredGrows(input, more, row.file);
      PlannedAre(input', plan', row);
    }
    if UniqueIds(input) {
      forall o | o in plan.affected
        ensures o in plan'.affected
      {
        AffectedAre(input, o);
        MoreChangedMoreAffected(input, more, o.id);
        AffectedAre(input', o);
      }
    }
  }

  // ---------------------------------------------------------------- more forgiven debt

  ghost predicate SameButForgiven(input: Input, input': Input) { input' == input.(forgiven := input'.forgiven) }

  lemma {:induction false} SameAffected(input: Input, input': Input, groups: seq<Group>)
    requires SameButForgiven(input, input')
    ensures AffectedBy(input', groups) == AffectedBy(input, groups)
  {
    if groups == [] {
      SameTouched(input, input', input.obligations);
    } else {
      SameAffected(input, input', groups[..|groups| - 1]);
      var g := groups[|groups| - 1];
      assert ChangedClaim(input', g) == ChangedClaim(input, g);
    }
  }

  lemma {:induction false} SameTouched(input: Input, input': Input, obligations: seq<Obligation>)
    requires SameButForgiven(input, input')
    ensures TouchedOnes(input', obligations) == TouchedOnes(input, obligations)
  {
    if obligations != [] {
      SameTouched(input, input', obligations[..|obligations| - 1]);
      var o := obligations[|obligations| - 1];
      assert Touched(input', o) == Touched(input, o);
    }
  }

  lemma SameClaimed(input: Input, input': Input)
    requires SameButForgiven(input, input')
    ensures forall id, file :: ClaimedIn(input', id, file) <==> ClaimedIn(input, id, file)
  {
    SameKeyMap(input, input', input.catalog);
    forall id, file
      ensures ClaimedIn(input', id, file) <==> ClaimedIn(input, id, file)
    {
      assert BindingsOf(input', id) == BindingsOf(input, id);
      assert forall i: Instance :: Resolve(input', i) == Resolve(input, i);
    }
  }

  ghost predicate ForgivesMore(input: Input, input': Input) {
    && SameButForgiven(input, input')
    && forall o :: Forgiven(input, o) ==> Forgiven(input', o)
  }

  lemma SameRequired(input: Input, input': Input)
    requires SameButForgiven(input, input')
    ensures Affected(input') == Affected(input)
    ensures forall f :: Required(input', f) <==> Required(input, f)
  {
    SameAffected(input, input', input.groups);
    SameClaimed(input, input');
  }

  lemma SameFiles(input: Input, input': Input, plan: Plan, plan': Plan)
    requires SameButForgiven(input, input') && IsPlan(input, plan) && IsPlan(input', plan')
    ensures plan'.affected == plan.affected && plan'.plannedRows == plan.plannedRows
    ensures plan'.requiredFiles == plan.requiredFiles && plan'.coveredFingerprints == plan.coveredFingerprints
  {
    SameRequired(input, input');
    StrictlySortedUnique(Order, plan.requiredFiles, plan'.requiredFiles);
    StrictlySortedUnique(Order, plan.coveredFingerprints, plan'.coveredFingerprints);
  }

  lemma MovesOnce(input: Input, input': Input, obligations: seq<Obligation>, id: string)
    requires ForgivesMore(input, input')
    ensures id in IdsWithout(input, obligations, true) ==> id in IdsWithout(input', obligations, true)
    ensures id in IdsWithout(input', obligations, false) ==> id in IdsWithout(input, obligations, false)
  {
    SameClaimed(input, input');
    WithoutMembers(input, obligations, true, id);
    WithoutMembers(input', obligations, true, id);
    WithoutMembers(input, obligations, false, id);
    WithoutMembers(input', obligations, false, id);
  }

  /** Forgiving more fingerprints only moves obligations from unclaimed to adopted. */
  lemma ForgivingMovesToAdopted(input: Input, input': Input, plan: Plan, plan': Plan)
    requires ForgivesMore(input, input') && IsPlan(input, plan) && IsPlan(input', plan')
    ensures plan'.affected == plan.affected && plan'.plannedRows == plan.plannedRows
    ensures plan'.requiredFiles == plan.requiredFiles && plan'.coveredFingerprints == plan.coveredFingerprints
    ensures forall id | id in plan.adopted :: id in plan'.adopted
    ensures forall id | id in plan'.unclaimed :: id in plan.unclaimed
    ensures multiset(plan'.adopted) + multiset(plan'.unclaimed) == multiset(plan.adopted) + multiset(plan.unclaimed)
  {
    SameFiles(input, input', plan, plan');
    forall id
      ensures id in plan.adopted ==> id in plan'.adopted
      ensures id in plan'.unclaimed ==> id in plan.unclaimed
    {
      MovesOnce(input, input', plan.affected, id);
    }
    SameClaimed(input, input');
    SameThose(input, input', plan.affected);
    SplitIsSame(input, input', plan.affected);
  }

  lemma SplitIsSame(input: Input, input': Input, obligations: seq<Obligation>)
    requires Those(input', obligations) == Those(input, obligations)
    ensures multiset(IdsWithout(input', obligations, true)) + multiset(IdsWithout(input', obligations, false))
         == multiset(IdsWithout(input, obligations, true)) + multiset(IdsWithout(input, obligations, false))
  {
    ThreeWaySplit(input, obligations);
    ThreeWaySplit(input', obligations);
    CancelFirst(multiset(Those(input, obligations)),
                multiset(IdsWithout(input', obligations, true)), multiset(IdsWithout(input', obligations, false)),
                multiset(IdsWithout(input, obligations, true)), multiset(IdsWithout(input, obligations, false)));
  }

  lemma CancelFirst(t: multiset<string>, a: multiset<string>, b: multiset<string>, c: multiset<string>,
                    d: multiset<string>)
    requires t + a + b == t + c + d
    ensures a + b == c + d
  {
    assert t + a + b - t == a + b;
    assert t + c + d - t == c + d;
  }

  lemma {:induction false} SameThose(input: Input, input': Input, obligations: seq<Obligation>)
    requires forall id, file :: ClaimedIn(input', id, file) <==> ClaimedIn(input, id, file)
    ensures Those(input', obligations) == Those(input, obligations)
  {
    if obligations != [] {
      SameThose(input, input', obligations[..|obligations| - 1]);
      var o := obligations[|obligations| - 1];
      assert Claimed(input', o.id) <==> Claimed(input, o.id);
    }
  }
}
