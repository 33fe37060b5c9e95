/** What a snapshot holds and why it is refused, item by item, over the paths and the files themselves. */
module SnapshotMeaning {
  import opened Lists
  import opened Sorting
  import opened Text
  import opened InputSnapshot
  import P = ModulePath

  // ---------------------------------------------------------------- relative paths

  ghost predicate Diverge(a: seq<string>, b: seq<string>) { a == [] || b == [] || a[0] != b[0] }

  lemma {:induction false} CommonIs(common: seq<string>, a: seq<string>, b: seq<string>)
    requires Diverge(a, b)
    ensures CommonLength(common + a, common + b) == |common|
  {
    if common == [] {
      assert common + a == a && common + b == b;
    } else {
      CommonIs(common[1..], a, b);
      assert (common + a)[1..] == common[1..] + a && (common + b)[1..] == common[1..] + b;
    }
  }

  /** One `..` for each directory to leave, then the names to enter. */
  lemma RelativeIs(common: seq<string>, a: seq<string>, b: seq<string>)
    requires Diverge(a, b)
    ensures Relative(common + a, common + b) == ToPosix(Join(seq(|a|, _ => "..") + b, '/'))
  {
    CommonIs(common, a, b);
    assert (common + b)[|common|..] == b;
  }

  /** Names a directory can have on a POSIX system, without a `\`. */
  ghost predicate IsName(s: string) { P.Plain(s) && '/' !in s && '\\' !in s }

  ghost predicate AllNames(names: seq<string>) { forall k | 0 <= k < |names| :: IsName(names[k]) }

  lemma {:induction false} JoinKeepsOut(parts: seq<string>, c: char)
    requires c != '/' && Free(parts, c)
    ensures c !in Join(parts, '/')
  {
    if |parts| > 1 {
      JoinKeepsOut(parts[1..], c);
    }
  }

  lemma ToPosixKeeps(s: string)
    requires '\\' !in s
    ensures ToPosix(s) == s
  {
  }

  lemma {:induction false} ResolveAppends(at: seq<string>, names: seq<string>)
    requires AllNames(names)
    ensures P.Resolve(at, names) == at + names
    decreases |names|
  {
    if names == [] {
      assert at + names == at;
    } else {
      ResolveAppends(at + [names[0]], names[1..]);
      assert at + [names[0]] + names[1..] == at + names;
    }
  }

  lemma {:induction false} ResolveLeaves(common: seq<string>, a: seq<string>, rest: seq<string>)
    ensures P.Resolve(common + a, seq(|a|, _ => "..") + rest) == P.Resolve(common, rest)
    decreases |a|
  {
    var up := seq(|a|, _ => "..");
    if a == [] {
      assert common + a == common && up + rest == rest;
    } else {
      var front := a[..|a| - 1];
      assert (up + rest)[0] == ".." && (up + rest)[1..] == seq(|front|, _ => "..") + rest;
      assert (common + a)[..|common + a| - 1] == common + front;
      ResolveLeaves(common, front, rest);
    }
  }

  lemma StepsAreParts(n: nat, names: seq<string>)
    requires AllNames(names)
    ensures Free(seq(n, _ => "..") + names, '/') && Free(seq(n, _ => "..") + names, '\\')
  {
    var parts := seq(n, _ => "..") + names;
    forall k, c | 0 <= k < |parts| && c in {'/', '\\'}
      ensures c !in parts[k]
    {
      assert k >= n ==> parts[k] == names[k - n];
    }
  }

  lemma StepsRead(n: nat, names: seq<string>)
    requires AllNames(names)
    ensures var parts := seq(n, _ => "..") + names;
      Split(ToPosix(Join(parts, '/')), '/') == if parts == [] then [""] else parts
  {
    var parts := seq(n, _ => "..") + names;
    StepsAreParts(n, names);
    JoinKeepsOut(parts, '\\');
    ToPosixKeeps(Join(parts, '/'));
    if parts != [] {
      SplitJoin(parts, '/');
    }
  }

  /** Following the relative path of a directory from where it starts leads to that directory. */
  lemma RelativeLeadsThere(from: seq<string>, to: seq<string>)
    requires AllNames(to)
    ensures P.Resolve(from, Split(Relative(from, to), '/')) == to
  {
    var n := CommonLength(from, to);
    var common, a, b := from[..n], from[n..], to[n..];
    assert from == common + a && to == common + b;
    StepsRead(|a|, b);
    if a == [] && b == [] {
      assert P.Resolve(from, [""][1..]) == from;
    } else {
      ResolveLeaves(common, a, b);
      ResolveAppends(common, b);
    }
  }

  // ---------------------------------------------------------------- what the snapshot holds

  /** The item says that `path` is not there. */
  ghost predicate Marks(item: string, path: string) { item == "absent:" + path }

  ghost predicate IsMark(item: string) { exists path :: Marks(item, path) }

  lemma MarkIs(item: string)
    ensures AbsenceMark(item) <==> IsMark(item)
    ensures forall path :: Marks(item, path) <==> AbsenceMark(item) && Label(item) == path
  {
    if AbsenceMark(item) {
      assert Marks(item, Label(item));
    }
  }

  ghost predicate Names(item: string, path: string) { Marks(item, path) || (item == path && !IsMark(item)) }

  /** A declared or tracked item that neither a dependency mount supplies nor an approved exclusion leaves out. */
  ghost predicate Reported(input: Input, item: string) {
    && (item in input.declared || item in input.inventory)
    && (forall m, path | 0 <= m < |input.mounts| && Names(item, path) :: !AtOrBelow(path, input.mounts[m]))
    && (!IsMark(item) ==>
          && (forall d | 0 <= d < |input.docs| :: !AtOrBelow(item, input.docs[d]))
          && (forall c | 0 <= c < |input.cache| :: item != input.cache[c]))
  }

  ghost predicate InState(input: Input, item: string) {
    var state := StatePrefix(input);
    state != "" && AtOrBelow(item, state)
  }

  /** The entry that stands for an item. */
  ghost predicate Records(input: Input, item: string, e: FileEntry) {
    || (exists path :: Marks(item, path) && e == FileEntry(path, Absent, input.absentDigest(path)))
    || (&& !IsMark(item) && !InState(input, item) && input.stat(item).Ok?
        && var (kind, digest) := input.stat(item).value;
           e == if kind == Deleted && item !in input.tracked
                then FileEntry(item, Absent, input.absentDigest(item)) else FileEntry(item, kind, digest))
  }

  /** The item cannot be put into a snapshot. */
  ghost predicate Fails(input: Input, item: string, r: Refusal) {
    !IsMark(item) && !InState(input, item) && input.stat(item) == Err(r)
  }

  lemma ReportedIs(input: Input, item: string)
    requires item in input.declared || item in input.inventory
    ensures Listed(input, item) <==> Reported(input, item)
  {
    MarkIs(item);
    var path := if AbsenceMark(item) then Label(item) else item;
    assert Names(item, path);
    forall folder
      ensures Under(path, folder) <==> AtOrBelow(path, folder)
    {
      UnderIs(path, folder);
    }
    if Reused(input, path) {
      var m :| m in input.mounts && Under(path, m);
      var k :| 0 <= k < |input.mounts| && input.mounts[k] == m;
    }
    if InDocs(input, path) {
      var f :| f in input.docs && Under(path, f);
      var k :| 0 <= k < |input.docs| && input.docs[k] == f;
    }
    assert forall k | 0 <= k < |input.mounts| :: input.mounts[k] in input.mounts;
    assert forall k | 0 <= k < |input.docs| :: input.docs[k] in input.docs;
    assert forall k | 0 <= k < |input.cache| :: input.cache[k] in input.cache;
  }

  lemma EntryIs(input: Input, item: string)
    ensures forall e :: EntryOf(input, item) == Some(Ok(e)) <==> Records(input, item, e)
    ensures forall r :: EntryOf(input, item) == Some(Err(r)) <==> Fails(input, item, r)
  {
    MarkIs(item);
    UnderIs(item, StatePrefix(input));
  }

  /** `made` has one entry for each of the items that can be recorded, in their order. */
  ghost predicate MadeOf(input: Input, items: seq<string>, idx: seq<nat>, made: seq<FileEntry>) {
    && |idx| == |made| && Increasing(idx)
    && (forall k | 0 <= k < |idx| :: idx[k] < |items| && Records(input, items[idx[k]], made[k]))
    && (forall i: nat | i < |items| :: i in idx <==> exists e :: Records(input, items[i], e))
  }

  lemma {:induction false} EntriesPick(input: Input, items: seq<string>) returns (idx: seq<nat>)
    requires EntriesOf(input, items).Ok?
    ensures MadeOf(input, items, idx, EntriesOf(input, items).value)
  {
    if items == [] {
      idx := [];
    } else {
      var front, last := items[..|items| - 1], items[|items| - 1];
      idx := EntriesPick(input, front);
      EntryIs(input, last);
      assert forall i: nat | i < |front| :: items[i] == front[i];
      assert |front| !in idx by {
        assert forall k | 0 <= k < |idx| :: idx[k] < |front|;
      }
      if EntryOf(input, last).Some? {
        assert Records(input, last, EntryOf(input, last).value.value);
        idx := idx + [|front|];
      }
    }
  }

  /** The entries in some order: one for each of the items that can be recorded. */
  ghost predicate OneEach(input: Input, items: seq<string>, es: seq<FileEntry>) {
    exists idx: seq<nat>, made: seq<FileEntry> :: MadeOf(input, items, idx, made) && multiset(made) == multiset(es)
  }

  ghost predicate GuardsPass(input: Input) {
    Disjoint(input).None? && DocsRefusal(input).None? && CacheRefusal(input).None? && input.mountsValid
  }

  lemma InventoryIs(input: Input)
    ensures forall item :: item in Inventory(input) <==> Reported(input, item)
  {
    InventoryMembers(input);
    forall item
      ensures item in Inventory(input) <==> Reported(input, item)
    {
      if item in input.declared || item in input.inventory {
        ReportedIs(input, item);
      }
    }
  }

  /**
   * The snapshot, item by item: an absence mark is recorded as absent, a file with its own kind and digest, and a
   * path that is gone without ever having been tracked as absent. Each reported item outside the state directory has
   * one entry, and there is no other.
   */
  lemma WhatASnapshotHolds(input: Input)
    requires Collected(input).Ok?
    ensures forall e :: e in Collected(input).value <==> exists item :: Reported(input, item) && Records(input, item, e)
    ensures forall item :: item in Inventory(input) <==> Reported(input, item)
    ensures StrictlySorted(Order, Inventory(input)) && OneEach(input, Inventory(input), Collected(input).value)
    ensures Sorted(PathKey, Collected(input).value)
  {
    var items := Inventory(input);
    InventoryIs(input);
    InventoryMembers(input);
    SortedOneEach(input, items);
    forall e
      ensures e in EntriesOf(input, items).value <==> exists item :: Reported(input, item) && Records(input, item, e)
    {
      MadeFrom(input, items, e);
    }
  }

  lemma SortedOneEach(input: Input, items: seq<string>)
    requires EntriesOf(input, items).Ok?
    ensures var es := SortOn(PathKey, EntriesOf(input, items).value);
      && OneEach(input, items, es) && Sorted(PathKey, es)
      && forall e :: e in es <==> e in EntriesOf(input, items).value
  {
    var made := EntriesOf(input, items).value;
    SortIsSorted(PathKey, made);
    var idx := EntriesPick(input, items);
    assert MadeOf(input, items, idx, made);
  }

  lemma MadeFrom(input: Input, items: seq<string>, e: FileEntry)
    requires EntriesOf(input, items).Ok? && forall item :: item in items <==> Reported(input, item)
    ensures e in EntriesOf(input, items).value <==> exists item :: Reported(input, item) && Records(input, item, e)
  {
    EntriesMembers(input, items);
    if e in EntriesOf(input, items).value {
      var item :| item in items && EntryOf(input, item) == Some(Ok(e));
      EntryIs(input, item);
    }
    if item :| Reported(input, item) && Records(input, item, e) {
      EntryIs(input, item);
      assert item in items;
    }
  }

  lemma {:induction false} FirstFailure(input: Input, items: seq<string>, r: Refusal)
    ensures EntriesOf(input, items) == Err(r) <==>
              exists i: nat :: i < |items| && Fails(input, items[i], r)
                && forall j, x | 0 <= j < i :: !Fails(input, items[j], x)
  {
    if items != [] {
      var n := |items| - 1;
      var front, last := items[..n], items[n];
      assert forall i: nat | i < n :: front[i] == items[i];
      FirstFailure(input, front, r);
      EntryIs(input, last);
      if EntriesOf(input, front).Err? {
        var x := EntriesOf(input, front).error;
        FirstFailure(input, front, x);
        assert EntriesOf(input, items) == Err(x);
        var i: nat :| i < n && Fails(input, front[i], x) && forall j, y | 0 <= j < i :: !Fails(input, front[j], y);
        assert Fails(input, items[i], x);
      } else {
        NoFailure(input, front);
      }
    }
  }

  lemma {:induction false} NoFailure(input: Input, items: seq<string>)
    requires EntriesOf(input, items).Ok?
    ensures forall i, x | 0 <= i < |items| :: !Fails(input, items[i], x)
  {
    if items != [] {
      NoFailure(input, items[..|items| - 1]);
      EntryIs(input, items[|items| - 1]);
    }
  }

  /** The first reported item, in path order, that fails. */
  ghost predicate FailsFirst(input: Input, item: string, r: Refusal) {
    && Reported(input, item) && Fails(input, item, r)
    && forall other, x | Reported(input, other) && LexLess(Order(other), Order(item)) :: !Fails(input, other, x)
  }

  /** Once the guards pass, a collection fails exactly with the first reported item that fails. */
  lemma WhyCollectingFails(input: Input, r: Refusal)
    requires GuardsPass(input)
    ensures Collected(input) == Err(r) <==> exists item :: FailsFirst(input, item, r)
  {
    var items := Inventory(input);
    InventoryMembers(input);
    InventoryIs(input);
    FirstFailure(input, items, r);
    assert Collected(input) == Err(r) <==> EntriesOf(input, items) == Err(r);
    forall i: nat | i < |items|
      ensures FailsFirst(input, items[i], r) <==>
                Fails(input, items[i], r) && forall j, x | 0 <= j < i :: !Fails(input, items[j], x)
    {
      FirstIs(input, items, i, r);
    }
  }

  lemma FirstIs(input: Input, items: seq<string>, i: nat, r: Refusal)
    requires i < |items| && StrictlySorted(Order, items) && forall item :: item in items <==> Reported(input, item)
    ensures FailsFirst(input, items[i], r) <==>
              Fails(input, items[i], r) && forall j, x | 0 <= j < i :: !Fails(input, items[j], x)
  {
    forall j | 0 <= j < i
      ensures Reported(input, items[j]) && LexLess(Order(items[j]), Order(items[i]))
    {
      assert items[j] in items;
    }
    forall other | Reported(input, other) && LexLess(Order(other), Order(items[i]))
      ensures exists j :: 0 <= j < i && items[j] == other
    {
      var j :| 0 <= j < |items| && items[j] == other;
      LexTrichotomy(Order(other), Order(items[i]));
      assert j < i;
    }
    assert items[i] in items;
  }

  // ---------------------------------------------------------------- the guards

  /** The relative path of the state directory does not start with two dots. */
  ghost predicate Guarded(prefix: string) {
    prefix != "" && !(|prefix| >= 2 && prefix[0] == '.' && prefix[1] == '.')
  }

  ghost predicate HidesCommittedFile(input: Input) {
    && input.committed.Some?
    && exists k :: 0 <= k < |input.committed.value| && AtOrBelow(ToPosix(input.committed.value[k]), RealPrefix(input))
  }

  /** The declared path lies in the state directory, and the engine does not generate it there. */
  ghost predicate HiddenAt(input: Input, k: nat)
    requires k < |input.declared|
  {
    var prefix, d := RealPrefix(input), input.declared[k];
    && !IsMark(d)
    && ((d == prefix && !input.engineGenerated(""))
        || exists rest :: d == prefix + "/" + rest && !input.engineGenerated(rest))
  }

  lemma HiddenIs(input: Input, k: nat)
    requires k < |input.declared|
    ensures Hidden(input, RealPrefix(input), input.declared[k]) <==> HiddenAt(input, k)
  {
    var prefix, d := RealPrefix(input), input.declared[k];
    MarkIs(d);
    if prefix + "/" <= d {
      assert d == prefix + "/" + d[|prefix| + 1..];
      assert forall rest | d == prefix + "/" + rest :: rest == d[|prefix| + 1..];
    }
  }

  /** When the state directory is refused, and why: the causes are tried in this order. */
  lemma WhenTheStateOverlaps(input: Input)
    ensures Disjoint(input) ==
      if input.realOut == input.realRoot then Some(OverlapsRoot)
      else if !Guarded(RealPrefix(input)) then None
      else if HidesCommittedFile(input) then Some(HidesCommitted)
      else if exists k: nat :: k < |input.declared| && HiddenAt(input, k) then Some(HidesDeclared)
      else None
  {
    var prefix := RealPrefix(input);
    if input.committed.Some? {
      forall k | 0 <= k < |input.committed.value|
        ensures Under(ToPosix(input.committed.value[k]), prefix)
            <==> AtOrBelow(ToPosix(input.committed.value[k]), prefix)
      {
        UnderIs(ToPosix(input.committed.value[k]), prefix);
      }
    }
    forall k: nat | k < |input.declared|
      ensures Hidden(input, prefix, input.declared[k]) <==> HiddenAt(input, k)
    {
      HiddenIs(input, k);
    }
  }

  /** A repository path as its names. */
  ghost predicate Spells(path: string, names: seq<string>) {
    names != [] && AllNames(names) && path == Join(names, '/')
  }

  lemma CleanIs(path: string)
    ensures CleanPath(path) <==> exists names :: Spells(path, names)
    ensures forall names | Spells(path, names) :: names == Split(path, '/')
  {
    var parts := Split(path, '/');
    JoinSplit(path, '/');
    forall names | Spells(path, names)
      ensures CleanPath(path) && names == parts
    {
      SplitJoin(names, '/');
      JoinKeepsOut(names, '\\');
      assert path != "" && path[0] != '/' by {
        assert names[0] != "" && path[0] == names[0][0] && names[0][0] in names[0];
      }
    }
    if CleanPath(path) {
      forall k | 0 <= k < |parts|
        ensures IsName(parts[k])
      {
        assert parts[k] in parts;
        PartOf(path, '/', k, '\\');
      }
      assert Spells(path, parts);
    }
  }

  lemma {:induction false} PartOf(s: string, sep: char, k: nat, c: char)
    requires k < |Split(s, sep)| && c !in s
    ensures c !in Split(s, sep)[k]
    decreases |s|
  {
    if s != [] {
      assert s == [s[0]] + s[1..];
      if s[0] == sep {
        if k > 0 {
          PartOf(s[1..], sep, k - 1, c);
        }
      } else {
        PartOf(s[1..], sep, k, c);
      }
    }
  }

  /** `__pycache__` is the directory of the file, and no other name after it; the file ends in `.pyc` or `.pyo`. */
  ghost predicate IsBytecode(names: seq<string>)
    requires names != []
  {
    var last := names[|names| - 1];
    && last != "__pycache__" && (|names| >= 2 ==> names[|names| - 2] == "__pycache__")
    && exists stem :: last == stem + ".pyc" || last == stem + ".pyo"
  }

  lemma TailIs(s: string, end: string)
    requires |end| == 4
    ensures end == Tail(s, 4) <==> exists stem :: s == stem + end
  {
    if |s| >= 4 {
      assert s == s[..|s| - 4] + s[|s| - 4..];
    }
    forall stem | s == stem + end
      ensures Tail(s, 4) == end
    {
    }
  }

  lemma BytecodeIs(path: string, names: seq<string>)
    requires names == Split(path, '/')
    ensures Bytecode(path) <==> IsBytecode(names)
  {
    var last := names[|names| - 1];
    TailIs(last, ".pyc");
    TailIs(last, ".pyo");
    if stem :| last == stem + ".pyc" || last == stem + ".pyo" {
      assert last == stem + ".pyc" || last == stem + ".pyo";
    }
  }

  /** One of two paths is at or below the other. */
  ghost predicate Nested(prefix: string, folder: string) {
    prefix != "" && (AtOrBelow(prefix, folder) || AtOrBelow(folder, prefix))
  }

  lemma OverlapsIs(prefix: string, folder: string)
    ensures Overlaps(prefix, folder) <==> Nested(prefix, folder)
  {
    UnderIs(prefix, folder);
    UnderIs(folder, prefix);
  }

  ghost predicate CoversDeclared(input: Input, folder: string) {
    exists k :: 0 <= k < |input.declared| && !IsMark(input.declared[k]) && AtOrBelow(input.declared[k], folder)
  }

  ghost predicate NamesDeclared(input: Input, file: string) {
    exists k :: 0 <= k < |input.declared| && !IsMark(input.declared[k]) && input.declared[k] == file
  }

  /** When an approved documentation folder is refused, and why. */
  lemma WhenAFolderIsRefused(input: Input, folder: string)
    ensures CheckDoc(input, folder) ==
      if !(exists names :: Spells(folder, names)) then Some(InvalidDocs)
      else if Nested(StatePrefix(input), folder) then Some(DocsOverlapState)
      else if CoversDeclared(input, folder) then Some(DocsOverlapInput)
      else None
  {
    CleanIs(folder);
    OverlapsIs(StatePrefix(input), folder);
    forall k | 0 <= k < |input.declared|
      ensures AbsenceMark(input.declared[k]) <==> IsMark(input.declared[k])
      ensures Under(input.declared[k], folder) <==> AtOrBelow(input.declared[k], folder)
    {
      MarkIs(input.declared[k]);
      UnderIs(input.declared[k], folder);
    }
  }

  /** When an approved bytecode file is refused, and why. */
  lemma WhenAFileIsRefused(input: Input, file: string)
    ensures CheckCache(input, file) ==
      if !(exists names :: Spells(file, names) && IsBytecode(names)) then Some(InvalidCache)
      else if Nested(StatePrefix(input), file) then Some(CacheOverlapsState)
      else if NamesDeclared(input, file) then Some(CacheOverlapsInput)
      else None
  {
    CleanIs(file);
    BytecodeIs(file, Split(file, '/'));
    OverlapsIs(StatePrefix(input), file);
    forall k | 0 <= k < |input.declared|
      ensures AbsenceMark(input.declared[k]) <==> IsMark(input.declared[k])
    {
      MarkIs(input.declared[k]);
    }
  }

  ghost predicate RefusedAt(check: string -> Option<Refusal>, items: seq<string>, k: nat, r: Refusal) {
    k < |items| && check(items[k]) == Some(r) && forall j | 0 <= j < k :: check(items[j]).None?
  }

  /** This is the refusal of the first element that is refused. */
  ghost predicate RefusedFirst(check: string -> Option<Refusal>, items: seq<string>, r: Refusal) {
    exists k: nat :: RefusedAt(check, items, k, r)
  }

  lemma {:induction false} FirstRefusalHasPlace(check: string -> Option<Refusal>, items: seq<string>) returns (k: nat)
    requires FirstRefusal(check, items).Some?
    ensures RefusedAt(check, items, k, FirstRefusal(check, items).value)
  {
    var front := items[..|items| - 1];
    if FirstRefusal(check, front).Some? {
      k := FirstRefusalHasPlace(check, front);
      assert forall j | 0 <= j <= k :: front[j] == items[j];
    } else {
      k := |items| - 1;
      assert forall j | 0 <= j < k :: front[j] == items[j];
    }
  }

  lemma FirstRefusalIs(check: string -> Option<Refusal>, items: seq<string>, r: Refusal)
    ensures FirstRefusal(check, items) == Some(r) <==> RefusedFirst(check, items, r)
  {
    if FirstRefusal(check, items).Some? {
      var k := FirstRefusalHasPlace(check, items);
      assert forall other: nat, x | RefusedAt(check, items, other, x) :: other == k;
    }
  }

  /**
   * Which guard refuses: the state directory, else the first refused documentation folder, else the first refused
   * bytecode file, else the mounts.
   */
  lemma WhichGuardRefuses(input: Input, r: Refusal)
    requires !GuardsPass(input)
    ensures Collected(input) == Err(r) <==>
              if Disjoint(input).Some? then Disjoint(input) == Some(r)
              else if exists k :: 0 <= k < |input.docs| && CheckDoc(input, input.docs[k]).Some?
              then RefusedFirst(d => CheckDoc(input, d), input.docs, r)
              else if exists k :: 0 <= k < |input.cache| && CheckCache(input, input.cache[k]).Some?
              then RefusedFirst(c => CheckCache(input, c), input.cache, r)
              else !input.mountsValid && r == BadMounts
  {
    FirstRefusalIs(d => CheckDoc(input, d), input.docs, r);
    FirstRefusalIs(c => CheckCache(input, c), input.cache, r);
  }
}
