/** What a changed-scope plan holds, over the catalog, the mappings and the changed files themselves. */
module PlanMeaning {
  import opened Text
  import opened Sorting
  import opened ProjectClosure
  import opened ScopedPlan

  // ---------------------------------------------------------------- affected obligations

  /** Some source file known for the obligation's resource is a changed file. */
  ghost predicate SourceChanged(input: Input, o: Obligation) {
    && o.resourceId in input.sources
    && exists i :: 0 <= i < |input.sources[o.resourceId]| && input.sources[o.resourceId][i] in input.changedFiles
  }

  /** Instance `i` of binding `b` is declared, not inferred. */
  ghost predicate DeclaredAt(g: Group, b: nat, i: nat) {
    b < |g.bindings| && i < |g.bindings[b].instances| && g.bindings[b].origin != Inferred
  }

  ghost predicate ClaimChanged(input: Input, g: Group) {
    exists b: nat, i: nat :: DeclaredAt(g, b, i) && g.bindings[b].instances[i].file in input.changedFiles
  }

  lemma TouchedIs(input: Input, o: Obligation)
    ensures Touched(input, o) <==> SourceChanged(input, o)
  {
    if o.resourceId in input.sources {
      var files := input.sources[o.resourceId];
      if f :| f in files && Changed(input, f) {
        var i :| 0 <= i < |files| && files[i] == f;
      }
      if i :| 0 <= i < |files| && files[i] in input.changedFiles {
        assert Changed(input, files[i]);
      }
    }
  }

  lemma ChangedClaimIs(input: Input, g: Group)
    ensures ChangedClaim(input, g) <==> ClaimChanged(input, g)
  {
    if ChangedClaim(input, g) {
      var binding, instance :| binding in g.bindings && Declared(binding) && instance in binding.instances
                               && Changed(input, instance.file);
      var b :| 0 <= b < |g.bindings| && g.bindings[b] == binding;
      var i :| 0 <= i < |binding.instances| && binding.instances[i] == instance;
      assert DeclaredAt(g, b, i);
    }
    if b: nat, i: nat :| DeclaredAt(g, b, i) && g.bindings[b].instances[i].file in input.changedFiles {
      assert g.bindings[b] in g.bindings && Declared(g.bindings[b]);
      assert g.bindings[b].instances[i] in g.bindings[b].instances && Changed(input, g.bindings[b].instances[i].file);
    }
  }

  /** Exactly which ids are affected: a changed source, or a changed test file that declares a claim. */
  lemma WhichAreAffected(input: Input, plan: Plan, id: string)
    requires IsPlan(input, plan)
    ensures (exists o :: o in plan.affected && o.id == id) <==>
            || (exists o :: o in input.obligations && o.id == id && SourceChanged(input, o))
            || ((exists o :: o in input.obligations && o.id == id)
                && exists g :: g in input.groups && g.obligationId == id && ClaimChanged(input, g))
  {
    AffectedIds(input, id);
    forall o
      ensures Touched(input, o) <==> SourceChanged(input, o)
    {
      TouchedIs(input, o);
    }
    forall g
      ensures ChangedClaim(input, g) <==> ClaimChanged(input, g)
    {
      ChangedClaimIs(input, g);
    }
    assert id in Ids(plan.affected) <==> exists o :: o in plan.affected && o.id == id;
    assert id in Ids(input.obligations) <==> exists o :: o in input.obligations && o.id == id;
  }

  // ---------------------------------------------------------------- claims

  /** The catalog's last entry for a runner key. */
  ghost predicate LastForKey(input: Input, key: string, k: nat) {
    && k < |input.catalog| && input.runnerKey(input.catalog[k].row.file, input.catalog[k].row.titlePath) == key
    && forall j | k < j < |input.catalog| ::
         input.runnerKey(input.catalog[j].row.file, input.catalog[j].row.titlePath) != key
  }

  /** The catalog's last entry for a logical key. */
  ghost predicate LastLogical(catalog: seq<CatalogEntry>, key: string, k: nat) {
    && k < |catalog| && catalog[k].row.logicalKey == key
    && forall j | k < j < |catalog| :: catalog[j].row.logicalKey != key
  }

  /** The mapped test still stands in the catalog, in this file. */
  ghost predicate StandsIn(input: Input, i: Instance, file: string) {
    exists k: nat, n: nat ::
      && LastForKey(input, input.runnerKey(i.file, i.titlePath), k)
      && LastLogical(input.catalog, input.catalog[k].row.logicalKey, n)
      && input.catalog[n].row.file == file
  }

  /** Group `n` is the last one for the id. */
  ghost predicate LastGroup(groups: seq<Group>, id: string, n: nat) {
    n < |groups| && groups[n].obligationId == id && forall j | n < j < |groups| :: groups[j].obligationId != id
  }

  /** A declared claim for the id resolves to a test in this file. */
  ghost predicate Claims(input: Input, id: string, file: string) {
    exists n: nat, b: nat, i: nat ::
      LastGroup(input.groups, id, n) && DeclaredAt(input.groups[n], b, i)
      && StandsIn(input, input.groups[n].bindings[b].instances[i], file)
  }

  lemma {:induction false} KeyMapIs(input: Input, catalog: seq<CatalogEntry>, key: string)
    requires catalog <= input.catalog
    ensures key in KeyMap(input, catalog) ==>
              exists k: nat :: LastForKey(input.(catalog := catalog), key, k)
                               && KeyMap(input, catalog)[key] == catalog[k].row.logicalKey
    ensures key !in KeyMap(input, catalog) ==>
              forall k: nat :: !LastForKey(input.(catalog := catalog), key, k)
  {
    if catalog != [] {
      var front, e := catalog[..|catalog| - 1], catalog[|catalog| - 1];
      KeyMapIs(input, front, key);
      if input.runnerKey(e.row.file, e.row.titlePath) == key {
        assert LastForKey(input.(catalog := catalog), key, |catalog| - 1);
      } else if key in KeyMap(input, front) {
        var k: nat :| LastForKey(input.(catalog := front), key, k)
                      && KeyMap(input, front)[key] == front[k].row.logicalKey;
        assert LastForKey(input.(catalog := catalog), key, k);
      } else {
        forall k: nat
          ensures !LastForKey(input.(catalog := catalog), key, k)
        {
          assert !LastForKey(input.(catalog := front), key, k);
        }
      }
    }
  }

  lemma {:induction false} EntryMapIs(catalog: seq<CatalogEntry>, key: string)
    ensures key in EntryMap(catalog) ==>
              exists n: nat :: LastLogical(catalog, key, n) && EntryMap(catalog)[key] == catalog[n]
    ensures key !in EntryMap(catalog) ==> forall n: nat :: !LastLogical(catalog, key, n)
  {
    if catalog != [] {
      var front, e := catalog[..|catalog| - 1], catalog[|catalog| - 1];
      EntryMapIs(front, key);
      if e.row.logicalKey == key {
        assert LastLogical(catalog, key, |catalog| - 1);
      } else if key in EntryMap(front) {
        var n: nat :| LastLogical(front, key, n) && EntryMap(front)[key] == front[n];
        assert LastLogical(catalog, key, n);
      } else {
        forall n: nat
          ensures !LastLogical(catalog, key, n)
        {
          assert !LastLogical(front, key, n);
        }
      }
    }
  }

  lemma ResolveIs(input: Input, i: Instance, file: string)
    ensures Resolve(input, i).Some? && Resolve(input, i).value.row.file == file <==> StandsIn(input, i, file)
  {
    var key := input.runnerKey(i.file, i.titlePath);
    KeyMapIs(input, input.catalog, key);
    assert input.(catalog := input.catalog) == input;
    if key in KeyMap(input, input.catalog) {
      var k: nat :| LastForKey(input, key, k) && KeyMap(input, input.catalog)[key] == input.catalog[k].row.logicalKey;
      EntryMapIs(input.catalog, input.catalog[k].row.logicalKey);
    }
  }

  lemma {:induction false} BindingMapIs(groups: seq<Group>, id: string)
    ensures id in BindingMap(groups) ==>
              exists n: nat :: LastGroup(groups, id, n) && BindingMap(groups)[id] == groups[n].bindings
    ensures id !in BindingMap(groups) ==> forall n: nat :: !LastGroup(groups, id, n)
  {
    if groups != [] {
      var front, g := groups[..|groups| - 1], groups[|groups| - 1];
      BindingMapIs(front, id);
      if g.obligationId == id {
        assert LastGroup(groups, id, |groups| - 1);
      } else if id in BindingMap(front) {
        var n: nat :| LastGroup(front, id, n) && BindingMap(front)[id] == front[n].bindings;
        assert LastGroup(groups, id, n);
      } else {
        forall n: nat
          ensures !LastGroup(groups, id, n)
        {
          assert !LastGroup(front, id, n);
        }
      }
    }
  }

  /** Claims read over the mappings: the last group of an id counts, inferred bindings do not. */
  lemma ClaimedInIs(input: Input, id: string, file: string)
    ensures ClaimedIn(input, id, file) <==> Claims(input, id, file)
  {
    BindingMapIs(input.groups, id);
    if ClaimedIn(input, id, file) {
      var binding, instance :| binding in BindingsOf(input, id) && Declared(binding) && instance in binding.instances
                && Resolve(input, instance).Some? && Resolve(input, instance).value.row.file == file;
      var n: nat :| LastGroup(input.groups, id, n) && BindingMap(input.groups)[id] == input.groups[n].bindings;
      var b :| 0 <= b < |input.groups[n].bindings| && input.groups[n].bindings[b] == binding;
      var i :| 0 <= i < |binding.instances| && binding.instances[i] == instance;
      ResolveIs(input, instance, file);
      assert DeclaredAt(input.groups[n], b, i);
    }
    if Claims(input, id, file) {
      var n: nat, b: nat, i: nat :| LastGroup(input.groups, id, n) && DeclaredAt(input.groups[n], b, i)
                                    && StandsIn(input, input.groups[n].bindings[b].instances[i], file);
      var m: nat :| LastGroup(input.groups, id, m) && BindingMap(input.groups)[id] == input.groups[m].bindings;
      assert m == n;
      var binding := input.groups[n].bindings[b];
      ResolveIs(input, binding.instances[i], file);
      assert binding in BindingsOf(input, id) && Declared(binding) && binding.instances[i] in binding.instances;
    }
  }

  ghost predicate HasClaim(input: Input, id: string) { exists file :: Claims(input, id, file) }

  lemma ClaimedIs(input: Input, id: string)
    ensures Claimed(input, id) <==> HasClaim(input, id)
  {
    forall file
      ensures ClaimedIn(input, id, file) <==> Claims(input, id, file)
    {
      ClaimedInIs(input, id, file);
    }
  }

  // ---------------------------------------------------------------- adopted and unclaimed

  /** Exactly which ids are adopted and which are unclaimed; without a forgiven set nothing is adopted. */
  lemma WhichAreAdopted(input: Input, plan: Plan, id: string)
    requires IsPlan(input, plan)
    ensures id in plan.adopted <==>
            && input.forgiven.Some? && !HasClaim(input, id)
            && exists o :: o in plan.affected && o.id == id && input.fingerprint(o) in input.forgiven.value
    ensures id in plan.unclaimed <==>
            && !HasClaim(input, id)
            && exists o :: o in plan.affected && o.id == id
                           && (input.forgiven.None? || input.fingerprint(o) !in input.forgiven.value)
    ensures input.forgiven.None? ==> plan.adopted == []
  {
    ClaimedIs(input, id);
    WithoutMembers(input, plan.affected, true, id);
    WithoutMembers(input, plan.affected, false, id);
    if input.forgiven.None? && plan.adopted != [] {
      assert plan.adopted[0] in plan.adopted;
      WithoutMembers(input, plan.affected, true, plan.adopted[0]);
    }
  }

  // ---------------------------------------------------------------- files, rows and order

  /** Exactly which files are required and which rows are planned. */
  lemma WhichArePlanned(input: Input, plan: Plan, file: string, row: Row)
    requires IsPlan(input, plan)
    ensures file in plan.requiredFiles <==> exists o :: o in plan.affected && Claims(input, o.id, file)
    ensures row in plan.plannedRows <==>
            && (exists o :: o in plan.affected && Claims(input, o.id, row.file))
            && exists k :: 0 <= k < |input.catalog| && input.catalog[k].playwright && !input.catalog[k].informational
                           && input.catalog[k].row == row
  {
    forall id, f
      ensures ClaimedIn(input, id, f) <==> Claims(input, id, f)
    {
      ClaimedInIs(input, id, f);
    }
    PlannedAre(input, plan, row);
    if e :| e in input.catalog && e.playwright && !e.informational && e.row == row {
      var k :| 0 <= k < |input.catalog| && input.catalog[k] == e;
    }
  }

  /** The catalog positions that plan this row. */
  ghost function PlannableAt(catalog: seq<CatalogEntry>, row: Row): set<nat> {
    set k: nat | k < |catalog| && catalog[k].playwright && !catalog[k].informational && catalog[k].row == row
  }

  lemma {:induction false} PlannableCount(catalog: seq<CatalogEntry>, row: Row)
    ensures multiset(Plannable(catalog))[row] == |PlannableAt(catalog, row)|
  {
    if catalog == [] {
      assert PlannableAt(catalog, row) == {};
    } else {
      var n, e := |catalog| - 1, catalog[|catalog| - 1];
      PlannableCount(catalog[..n], row);
      assert PlannableAt(catalog, row) == PlannableAt(catalog[..n], row)
        + if e.playwright && !e.informational && e.row == row then {n} else {};
    }
  }

  lemma {:induction false} RowsInCount(rows: seq<Row>, files: set<string>, row: Row)
    ensures multiset(RowsIn(rows, files))[row] == if row.file in files then multiset(rows)[row] else 0
  {
    if rows != [] {
      RowsInCount(rows[..|rows| - 1], files, row);
      assert rows == rows[..|rows| - 1] + [rows[|rows| - 1]];
    }
  }

  /** A row is planned as often as the catalog holds it. */
  lemma PlannedAsOften(input: Input, plan: Plan, row: Row)
    requires IsPlan(input, plan)
    ensures multiset(plan.plannedRows)[row] ==
            if row.file in plan.requiredFiles then |PlannableAt(input.catalog, row)| else 0
  {
    PlannableCount(input.catalog, row);
    SortIsSorted(KeyOf, Plannable(input.catalog));
    RowsInCount(ExpectedSet(input.catalog), (set f | f in plan.requiredFiles), row);
  }

  ghost predicate InIdOrder(ids: seq<string>) {
    forall i, j | 0 <= i < j < |ids| :: !LexLess(Units(ids[j]), Units(ids[i]))
  }

  lemma {:induction false} WithoutOrdered(input: Input, obligations: seq<Obligation>, forgiven: bool)
    requires forall i, j | 0 <= i < j < |obligations| :: !LexLess(Units(obligations[j].id), Units(obligations[i].id))
    ensures InIdOrder(IdsWithout(input, obligations, forgiven))
  {
    if obligations != [] {
      var front, o := obligations[..|obligations| - 1], obligations[|obligations| - 1];
      WithoutOrdered(input, front, forgiven);
      var ids := IdsWithout(input, front, forgiven);
      forall i | 0 <= i < |ids|
        ensures !LexLess(Units(o.id), Units(ids[i]))
      {
        WithoutMembers(input, front, forgiven, ids[i]);
        var x :| x in front && x.id == ids[i];
        var k :| 0 <= k < |front| && front[k] == x;
        assert obligations[k] == x;
      }
    }
  }

  lemma {:induction false} RowsInOrdered(rows: seq<Row>, files: set<string>)
    requires Sorted(KeyOf, rows)
    ensures Sorted(KeyOf, RowsIn(rows, files))
  {
    if rows != [] {
      var front, row := rows[..|rows| - 1], rows[|rows| - 1];
      RowsInOrdered(front, files);
      RowsInMembers(front, files);
      var kept := RowsIn(front, files);
      forall i | 0 <= i < |kept|
        ensures !LexLess(KeyOf(row), KeyOf(kept[i]))
      {
        assert kept[i] in front;
        var k :| 0 <= k < |front| && front[k] == kept[i];
        assert rows[k] == kept[i];
      }
    }
  }

  /** Every list of the plan is in order: obligations and ids by id, files and fingerprints by name, rows by key. */
  lemma EverythingInOrder(input: Input, plan: Plan)
    requires IsPlan(input, plan)
    ensures forall i, j | 0 <= i < j < |plan.affected| ::
              !LexLess(Units(plan.affected[j].id), Units(plan.affected[i].id))
    ensures InIdOrder(plan.adopted) && InIdOrder(plan.unclaimed)
    ensures forall i, j | 0 <= i < j < |plan.requiredFiles| ::
              LexLess(Units(plan.requiredFiles[i]), Units(plan.requiredFiles[j]))
    ensures forall i, j | 0 <= i < j < |plan.plannedRows| ::
              !LexLess(Units(plan.plannedRows[j].logicalKey), Units(plan.plannedRows[i].logicalKey))
  {
    SortIsSorted(IdKey, AffectedBy(input, input.groups));
    WithoutOrdered(input, plan.affected, true);
    WithoutOrdered(input, plan.affected, false);
    SortIsSorted(KeyOf, Plannable(input.catalog));
    RowsInOrdered(ExpectedSet(input.catalog), set f | f in plan.requiredFiles);
  }
}
