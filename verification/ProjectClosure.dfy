/** Widening a narrowed plan by the rows of every project it depends on. */
module ProjectClosure {
  import opened Text
  import opened Sorting

  datatype Row = Row(logicalKey: string, project: Option<string>, file: string, titlePath: seq<string>)

  /** Project name to the names it depends on; cycles are allowed. */
  type Dependencies = map<string, seq<string>>

  function KeyOf(row: Row): seq<int> { Units(row.logicalKey) }

  // ---------------------------------------------------------------- reachability

  ghost predicate Edge(deps: Dependencies, a: string, b: string) { a in deps && b in deps[a] }

  ghost predicate IsPath(deps: Dependencies, path: seq<string>) {
    path != [] && forall i | 0 <= i < |path| - 1 :: Edge(deps, path[i], path[i + 1])
  }

  ghost predicate Reachable(deps: Dependencies, seeds: set<string>, x: string) {
    exists path :: IsPath(deps, path) && path[0] in seeds && path[|path| - 1] == x
  }

  /** The projects the selection names itself. */
  function SeedsOf(rows: seq<Row>): set<string> {
    set row | row in rows && row.project.Some? && row.project.value != "" :: row.project.value
  }

  /** Reached through an edge, and not named by the selection. */
  ghost predicate Reached(deps: Dependencies, rows: seq<Row>, x: string) {
    Reachable(deps, SeedsOf(rows), x) && x !in SeedsOf(rows)
  }

  lemma SeedIsReachable(deps: Dependencies, seeds: set<string>, x: string)
    requires x in seeds
    ensures Reachable(deps, seeds, x)
  {
    assert IsPath(deps, [x]) && [x][0] in seeds;
  }

  lemma StepIsReachable(deps: Dependencies, seeds: set<string>, x: string, y: string)
    requires Reachable(deps, seeds, x) && Edge(deps, x, y)
    ensures Reachable(deps, seeds, y)
  {
    var path :| IsPath(deps, path) && path[0] in seeds && path[|path| - 1] == x;
    var longer := path + [y];
    assert longer[0] in seeds && longer[|longer| - 1] == y;
    assert IsPath(deps, longer);
  }

  /** A set that holds the seeds and is closed under edges holds everything reachable. */
  lemma {:induction false} ClosedHoldsPath(deps: Dependencies, closed: set<string>, path: seq<string>)
    requires IsPath(deps, path) && path[0] in closed
    requires forall a, b | a in closed && Edge(deps, a, b) :: b in closed
    ensures path[|path| - 1] in closed
    decreases |path|
  {
    if |path| > 1 {
      assert Edge(deps, path[0], path[1]);
      var tail := path[1..];
      forall i | 0 <= i < |tail| - 1
        ensures Edge(deps, tail[i], tail[i + 1])
      {
        assert Edge(deps, path[i + 1], path[i + 1 + 1]);
      }
      ClosedHoldsPath(deps, closed, tail);
    }
  }

  /** What is reachable from reachable projects is reachable already. */
  lemma ReachableFromReachable(deps: Dependencies, seeds: set<string>, more: set<string>, x: string)
    requires forall y | y in more :: Reachable(deps, seeds, y)
    requires Reachable(deps, more, x)
    ensures Reachable(deps, seeds, x)
  {
    var path :| IsPath(deps, path) && path[0] in more && path[|path| - 1] == x;
    PathExtends(deps, seeds, path);
  }

  lemma {:induction false} PathExtends(deps: Dependencies, seeds: set<string>, path: seq<string>)
    requires IsPath(deps, path) && Reachable(deps, seeds, path[0])
    ensures Reachable(deps, seeds, path[|path| - 1])
    decreases |path|
  {
    if |path| > 1 {
      var front := path[..|path| - 1];
      assert IsPath(deps, front);
      PathExtends(deps, seeds, front);
      assert Edge(deps, path[|path| - 2], path[|path| - 2 + 1]);
      StepIsReachable(deps, seeds, front[|front| - 1], path[|path| - 1]);
    }
  }

  // ---------------------------------------------------------------- the worklist

  /** Every name the walk can meet. */
  function Universe(deps: Dependencies, seeds: set<string>): set<string> {
    seeds + set a, b | a in deps && b in deps[a] :: b
  }

  ghost predicate AllReachable(deps: Dependencies, seeds: set<string>, seeded: set<string>) {
    forall x | x in seeded :: Reachable(deps, seeds, x)
  }

  ghost predicate Walking(deps: Dependencies, seeds: set<string>, queue: seq<string>, seeded: set<string>,
                          reached: set<string>) {
    && seeded == seeds + reached && seeds !! reached
    && seeded <= Universe(deps, seeds)
    && AllReachable(deps, seeds, seeded)
    && (forall x | x in queue :: x in seeded)
  }

  /** Every project that is neither waiting nor the current one has all its dependencies seeded. */
  ghost predicate Settled(deps: Dependencies, queue: seq<string>, seeded: set<string>, current: set<string>) {
    forall a, b | a in seeded && a !in queue && a !in current && Edge(deps, a, b) :: b in seeded
  }

  /** How many names can still be seeded. */
  ghost function Left(deps: Dependencies, seeds: set<string>, seeded: set<string>): nat {
    |Universe(deps, seeds) - seeded|
  }

  method SeedQueue(rows: seq<Row>) returns (queue: seq<string>, seeded: set<string>)
    ensures seeded == SeedsOf(rows)
    ensures forall x :: x in queue <==> x in seeded
  {
    queue, seeded := [], {};
    for i := 0 to |rows|
      invariant seeded == SeedsOf(rows[..i])
      invariant forall x :: x in queue <==> x in seeded
    {
      assert rows[..i + 1] == rows[..i] + [rows[i]];
      var project := rows[i].project;
      if project.Some? && project.value != "" && project.value !in seeded {
        seeded := seeded + {project.value};
        queue := queue + [project.value];
      }
    }
    assert rows[..|rows|] == rows;
  }

  ghost predicate Visiting(deps: Dependencies, seeds: set<string>, project: string, queue: seq<string>,
                           seeded: set<string>, reached: set<string>) {
    Walking(deps, seeds, queue, seeded, reached) && project in seeded && Settled(deps, queue, seeded, {project})
  }

  lemma SeedOne(deps: Dependencies, seeds: set<string>, project: string, dependency: string, queue: seq<string>,
                seeded: set<string>, reached: set<string>)
    requires Visiting(deps, seeds, project, queue, seeded, reached)
    requires Edge(deps, project, dependency) && dependency !in seeded
    ensures Visiting(deps, seeds, project, queue + [dependency], seeded + {dependency}, reached + {dependency})
  {
    StepIsReachable(deps, seeds, project, dependency);
  }

  lemma SeedShrinks(deps: Dependencies, seeds: set<string>, project: string, dependency: string, seeded: set<string>)
    requires seeded <= Universe(deps, seeds)
    requires Edge(deps, project, dependency) && dependency !in seeded
    ensures Left(deps, seeds, seeded + {dependency}) < Left(deps, seeds, seeded)
  {
    Shrinks(Universe(deps, seeds), seeded, seeded + {dependency});
  }

  method Seed(deps: Dependencies, ghost seeds: set<string>, ghost project: string, dependency: string,
              queue0: seq<string>, seeded0: set<string>, reached0: set<string>)
    returns (queue: seq<string>, seeded: set<string>, reached: set<string>)
    requires Visiting(deps, seeds, project, queue0, seeded0, reached0) && Edge(deps, project, dependency)
    ensures Visiting(deps, seeds, project, queue, seeded, reached)
    ensures seeded0 <= seeded && dependency in seeded
    ensures Left(deps, seeds, seeded) < Left(deps, seeds, seeded0) || (seeded == seeded0 && queue == queue0)
  {
    queue, seeded, reached := queue0, seeded0, reached0;
    if dependency !in seeded {
      SeedOne(deps, seeds, project, dependency, queue, seeded, reached);
      SeedShrinks(deps, seeds, project, dependency, seeded);
      seeded := seeded + {dependency};
      reached := reached + {dependency};
      queue := queue + [dependency];
    }
  }

  ghost predicate FirstSeeded(dependencies: seq<string>, i: nat, seeded: set<string>) {
    i <= |dependencies| && forall k | 0 <= k < i :: dependencies[k] in seeded
  }

  lemma OneMoreSeeded(dependencies: seq<string>, i: nat, before: set<string>, seeded: set<string>)
    requires i < |dependencies| && FirstSeeded(dependencies, i, before)
    requires before <= seeded && dependencies[i] in seeded
    ensures FirstSeeded(dependencies, i + 1, seeded)
  {
  }

  /** Seeds the dependencies of one project. */
  method Visit(deps: Dependencies, ghost seeds: set<string>, project: string, queue0: seq<string>,
               seeded0: set<string>, reached0: set<string>)
    returns (queue: seq<string>, seeded: set<string>, reached: set<string>)
    requires Visiting(deps, seeds, project, queue0, seeded0, reached0)
    ensures Walking(deps, seeds, queue, seeded, reached)
    ensures Settled(deps, queue, seeded, {})
    ensures Left(deps, seeds, seeded) < Left(deps, seeds, seeded0) || (seeded == seeded0 && queue == queue0)
  {
    queue, seeded, reached := queue0, seeded0, reached0;
    var dependencies := if project in deps then deps[project] else [];
    for i := 0 to |dependencies|
      invariant Visiting(deps, seeds, project, queue, seeded, reached)
      invariant FirstSeeded(dependencies, i, seeded)
      invariant Left(deps, seeds, seeded) < Left(deps, seeds, seeded0) || (seeded == seeded0 && queue == queue0)
    {
      ghost var before := seeded;
      queue, seeded, reached := Seed(deps, seeds, project, dependencies[i], queue, seeded, reached);
      OneMoreSeeded(dependencies, i, before, seeded);
    }
    VisitedIsSettled(deps, queue, seeded, project, dependencies);
  }

  lemma VisitedIsSettled(deps: Dependencies, queue: seq<string>, seeded: set<string>, project: string,
                         dependencies: seq<string>)
    requires Settled(deps, queue, seeded, {project})
    requires forall b | Edge(deps, project, b) :: b in dependencies
    requires FirstSeeded(dependencies, |dependencies|, seeded)
    ensures Settled(deps, queue, seeded, {})
  {
  }

  lemma PoppedIsVisiting(deps: Dependencies, seeds: set<string>, queue: seq<string>, seeded: set<string>,
                         reached: set<string>)
    requires queue != [] && Walking(deps, seeds, queue, seeded, reached) && Settled(deps, queue, seeded, {})
    ensures Visiting(deps, seeds, queue[0], queue[1..], seeded, reached)
  {
    assert queue == [queue[0]] + queue[1..];
  }

  /** With nothing left to visit, the seeded projects are the reachable ones. */
  lemma WalkIsComplete(deps: Dependencies, seeds: set<string>, seeded: set<string>, reached: set<string>)
    requires Walking(deps, seeds, [], seeded, reached) && Settled(deps, [], seeded, {})
    ensures forall x :: x in reached <==> Reachable(deps, seeds, x) && x !in seeds
  {
    forall x | Reachable(deps, seeds, x)
      ensures x in seeded
    {
      var path :| IsPath(deps, path) && path[0] in seeds && path[|path| - 1] == x;
      ClosedHoldsPath(deps, seeded, path);
    }
  }

  lemma StartsWalking(deps: Dependencies, seeds: set<string>, queue: seq<string>)
    requires forall x :: x in queue <==> x in seeds
    ensures Walking(deps, seeds, queue, seeds, {}) && Settled(deps, queue, seeds, {})
  {
    forall x | x in seeds
      ensures Reachable(deps, seeds, x)
    {
      SeedIsReachable(deps, seeds, x);
    }
  }

  /** The walk ends on every graph and reaches exactly what the edges reach. */
  method ReachedByEdge(rows: seq<Row>, deps: Dependencies) returns (reached: set<string>)
    ensures forall x :: x in reached <==> Reached(deps, rows, x)
  {
    var queue, seeded := SeedQueue(rows);
    ghost var seeds := seeded;
    reached := {};
    StartsWalking(deps, seeds, queue);
    while queue != []
      invariant Walking(deps, seeds, queue, seeded, reached)
      invariant Settled(deps, queue, seeded, {})
      decreases Left(deps, seeds, seeded), |queue|
    {
      var project := queue[0];
      PoppedIsVisiting(deps, seeds, queue, seeded, reached);
      queue, seeded, reached := Visit(deps, seeds, project, queue[1..], seeded, reached);
    }
    WalkIsComplete(deps, seeds, seeded, reached);
  }

  lemma Shrinks(universe: set<string>, small: set<string>, large: set<string>)
    requires small < large <= universe
    ensures |universe - large| < |universe - small|
  {
    var x :| x in large && x !in small;
    assert x in universe - small && x !in universe - large;
    assert universe - large < universe - small;
    ProperSubsetIsSmaller(universe - large, universe - small);
  }

  lemma {:induction false} ProperSubsetIsSmaller<T>(a: set<T>, b: set<T>)
    requires a < b
    ensures |a| < |b|
    decreases a
  {
    if a != {} {
      var x :| x in a;
      ProperSubsetIsSmaller(a - {x}, b - {x});
    }
  }

  // ---------------------------------------------------------------- the widened plan

  function Keys(rows: seq<Row>): set<string> { set row | row in rows :: row.logicalKey }

  ghost predicate Adds(deps: Dependencies, rows: seq<Row>, row: Row) {
    row.project.Some? && Reached(deps, rows, row.project.value) && row.logicalKey !in Keys(rows)
  }

  ghost function Added(deps: Dependencies, rows: seq<Row>, all: seq<Row>): seq<Row> {
    if all == [] then []
    else
      var front, row := Added(deps, rows, all[..|all| - 1]), all[|all| - 1];
      if Adds(deps, rows, row) then front + [row] else front
  }

  ghost function Widened(rows: seq<Row>, all: seq<Row>, deps: Dependencies): seq<Row> {
    var added := Added(deps, rows, all);
    if added == [] then rows else SortOn(KeyOf, rows + added)
  }

  method PlannedRowsWithProjectDependencies(rows: seq<Row>, all: seq<Row>, deps: Dependencies)
    returns (r: seq<Row>)
    ensures r == Widened(rows, all, deps)
  {
    var reached := ReachedByEdge(rows, deps);
    if reached == {} {
      NothingAdded(deps, rows, all);
      return rows;
    }
    var selected := Keys(rows);
    var added := [];
    for i := 0 to |all|
      invariant added == Added(deps, rows, all[..i])
    {
      assert all[..i + 1][..i] == all[..i];
      var row := all[i];
      if row.project.Some? && row.project.value in reached && row.logicalKey !in selected {
        added := added + [row];
      }
    }
    assert all[..|all|] == all;
    if added == [] { return rows; }
    return SortOn(KeyOf, rows + added);
  }

  lemma {:induction false} AddedMembers(deps: Dependencies, rows: seq<Row>, all: seq<Row>)
    ensures forall row :: row in Added(deps, rows, all) <==> row in all && Adds(deps, rows, row)
  {
    if all != [] {
      AddedMembers(deps, rows, all[..|all| - 1]);
      assert all == all[..|all| - 1] + [all[|all| - 1]];
    }
  }

  lemma {:induction false} NothingAdded(deps: Dependencies, rows: seq<Row>, all: seq<Row>)
    requires forall row | row in all :: !Adds(deps, rows, row)
    ensures Added(deps, rows, all) == []
  {
    if all != [] {
      NothingAdded(deps, rows, all[..|all| - 1]);
    }
  }

  /** The widened plan: the selected rows, and every row of a reached project that is not selected already. */
  lemma WidenedMembers(rows: seq<Row>, all: seq<Row>, deps: Dependencies)
    ensures forall row :: row in Widened(rows, all, deps) <==> row in rows || (row in all && Adds(deps, rows, row))
  {
    AddedMembers(deps, rows, all);
    SortIsSorted(KeyOf, rows + Added(deps, rows, all));
  }

  /** Selected rows keep their place when nothing is added; otherwise the whole plan is in logical-key order. */
  lemma WidenedOrder(rows: seq<Row>, all: seq<Row>, deps: Dependencies)
    ensures Widened(rows, all, deps) == rows || Sorted(KeyOf, Widened(rows, all, deps))
    ensures Sorted(KeyOf, rows) ==> Sorted(KeyOf, Widened(rows, all, deps))
    ensures (exists row :: row in all && Adds(deps, rows, row)) ==> Sorted(KeyOf, Widened(rows, all, deps))
  {
    AddedMembers(deps, rows, all);
    SortIsSorted(KeyOf, rows + Added(deps, rows, all));
  }

  lemma {:induction false} AddedDistinct(deps: Dependencies, rows: seq<Row>, all: seq<Row>)
    requires DistinctKeys(KeyOf, all)
    ensures DistinctKeys(KeyOf, Added(deps, rows, all))
  {
    if all != [] {
      var front := all[..|all| - 1];
      AddedDistinct(deps, rows, front);
      AddedMembers(deps, rows, front);
      var kept := Added(deps, rows, front);
      forall i | 0 <= i < |kept|
        ensures KeyOf(kept[i]) != KeyOf(all[|all| - 1])
      {
        assert kept[i] in front;
        var k :| 0 <= k < |front| && front[k] == kept[i];
        assert all[k] == front[k];
      }
    }
  }

  /** No row is planned twice: distinct logical keys stay distinct, in strictly increasing order. */
  lemma WidenedDistinct(rows: seq<Row>, all: seq<Row>, deps: Dependencies)
    requires DistinctKeys(KeyOf, rows) && DistinctKeys(KeyOf, all)
    ensures Widened(rows, all, deps) == rows || StrictlySorted(KeyOf, Widened(rows, all, deps))
  {
    var added := Added(deps, rows, all);
    AddedDistinct(deps, rows, all);
    AddedMembers(deps, rows, all);
    var both := rows + added;
    forall i, j | 0 <= i < j < |both|
      ensures KeyOf(both[i]) != KeyOf(both[j])
    {
      if i < |rows| <= j {
        var row := added[j - |rows|];
        assert row in added && rows[i] in rows;
        assert row.logicalKey !in Keys(rows) && rows[i].logicalKey in Keys(rows);
        if KeyOf(rows[i]) == KeyOf(row) {
          UnitsInjective(rows[i].logicalKey, row.logicalKey);
        }
      }
    }
    SortIsStrict(KeyOf, both);
  }

  // ---------------------------------------------------------------- what widening means

  /** Widening a widened plan changes nothing. */
  lemma WideningIsIdempotent(rows: seq<Row>, all: seq<Row>, deps: Dependencies)
    ensures Widened(Widened(rows, all, deps), all, deps) == Widened(rows, all, deps)
  {
    var wide := Widened(rows, all, deps);
    WidenedMembers(rows, all, deps);
    assert Keys(rows) <= Keys(wide);
    forall row | row in all
      ensures !Adds(deps, wide, row)
    {
      if row.project.Some? && Reached(deps, wide, row.project.value) {
        NothingNewReached(rows, all, deps, row.project.value);
        if row.logicalKey !in Keys(rows) {
          assert row in wide;
        }
      }
    }
    NothingAdded(deps, wide, all);
  }

  lemma NothingNewReached(rows: seq<Row>, all: seq<Row>, deps: Dependencies, x: string)
    requires Reached(deps, Widened(rows, all, deps), x)
    ensures Reached(deps, rows, x)
  {
    var wide := Widened(rows, all, deps);
    WidenedMembers(rows, all, deps);
    forall y | y in SeedsOf(wide)
      ensures Reachable(deps, SeedsOf(rows), y)
    {
      var row :| row in wide && row.project == Some(y) && y != "";
      if row in rows {
        SeedIsReachable(deps, SeedsOf(rows), y);
      }
    }
    ReachableFromReachable(deps, SeedsOf(rows), SeedsOf(wide), x);
    assert SeedsOf(rows) <= SeedsOf(wide);
  }

  /** A project the selection names itself contributes nothing new. */
  lemma NeighboursStayOut(rows: seq<Row>, all: seq<Row>, deps: Dependencies, row: Row)
    requires row in Widened(rows, all, deps) && row.project.Some? && row.project.value in SeedsOf(rows)
    ensures row in rows
  {
    WidenedMembers(rows, all, deps);
  }

  /** A full plan is left as it is. */
  lemma FullPlanIsUnchanged(all: seq<Row>, deps: Dependencies)
    ensures Widened(all, all, deps) == all
  {
    assert forall row | row in all :: row.logicalKey in Keys(all);
    NothingAdded(deps, all, all);
  }

  /**
   * A dependency edge of a planned project never points outside the plan: whenever the dependency has rows at all,
   * the plan holds one of them, and holds all of them when the selection itself did not name that project.
   */
  lemma DependenciesArePlanned(rows: seq<Row>, all: seq<Row>, deps: Dependencies, row: Row, dependency: string,
                               target: Row)
    requires DistinctKeys(KeyOf, all) && forall r | r in rows :: r in all
    requires row in Widened(rows, all, deps) && row.project.Some? && row.project.value != ""
    requires Edge(deps, row.project.value, dependency)
    requires target in all && target.project == Some(dependency)
    ensures exists r :: r in Widened(rows, all, deps) && r.project == Some(dependency)
    ensures dependency !in SeedsOf(rows) ==> target in Widened(rows, all, deps)
  {
    var seeds := SeedsOf(rows);
    WidenedMembers(rows, all, deps);
    if row in rows {
      SeedIsReachable(deps, seeds, row.project.value);
    }
    StepIsReachable(deps, seeds, row.project.value, dependency);
    if dependency in seeds {
      var r :| r in rows && r.project.Some? && r.project.value != "" && r.project.value == dependency;
      assert r in Widened(rows, all, deps);
    } else if target.logicalKey in Keys(rows) {
      var r :| r in rows && r.logicalKey == target.logicalKey;
      SameKeySameRow(all, r, target);
    } else {
      assert Adds(deps, rows, target);
    }
  }

  lemma SameKeySameRow(all: seq<Row>, a: Row, b: Row)
    requires DistinctKeys(KeyOf, all) && a in all && b in all && a.logicalKey == b.logicalKey
    ensures a == b
  {
    var i :| 0 <= i < |all| && all[i] == a;
    var j :| 0 <= j < |all| && all[j] == b;
    assert i == j;
  }
}
