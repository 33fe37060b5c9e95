/** The input-file inventory behind the evidence digest: which declared inputs it holds, and which guards see to it. */
module InputSnapshot {
  import opened Lists
  import opened Sorting
  import opened Text

  datatype Kind = File | Symlink | DanglingSymlink | DirectorySymlink | Absent | Deleted

  datatype FileEntry = FileEntry(path: string, kind: Kind, digest: string)

  datatype Refusal = OverlapsRoot | HidesCommitted | HidesDeclared | InvalidDocs | DocsOverlapState | DocsOverlapInput
                   | InvalidCache | CacheOverlapsState | CacheOverlapsInput | BadMounts | Unsupported

  /** Absolute paths as their segments; `real` ones have symbolic links resolved. */
  datatype Input = Input(
    root: seq<string>, out: seq<string>, realRoot: seq<string>, realOut: seq<string>,
    declared: seq<string>,
    /** `None` when the repository has no readable commit. */
    committed: Option<seq<string>>,
    docs: seq<string>, cache: seq<string>,
    mounts: seq<string>, mountsValid: bool,
    inventory: seq<string>, tracked: set<string>,
    stat: string -> Result<(Kind, string), Refusal>,
    absentDigest: string -> string,
    engineGenerated: string -> bool)

  function Order(s: string): seq<int> { Units(s) }

  function PathKey(e: FileEntry): seq<int> { Units(e.path) }

  // ---------------------------------------------------------------- paths

  /** `\` becomes `/`. */
  function ToPosix(s: string): (r: string)
    ensures |r| == |s|
  {
    seq(|s|, i requires 0 <= i < |s| => if s[i] == '\\' then '/' else s[i])
  }

  function CommonLength(a: seq<string>, b: seq<string>): (n: nat)
    ensures n <= |a| && n <= |b| && a[..n] == b[..n]
    ensures n < |a| && n < |b| ==> a[n] != b[n]
  {
    if a == [] || b == [] || a[0] != b[0] then 0
    else
      var n := CommonLength(a[1..], b[1..]) + 1;
      assert a[..n] == [a[0]] + a[1..][..n - 1] && b[..n] == [b[0]] + b[1..][..n - 1];
      n
  }

  /** `path.relative(from, to)` for absolute paths, with `/` separators. */
  function Relative(from: seq<string>, to: seq<string>): string {
    var n := CommonLength(from, to);
    ToPosix(Join(seq(|from| - n, _ => "..") + to[n..], '/'))
  }

  predicate AbsenceMark(item: string) { "absent:" <= item }

  function Label(item: string): string
    requires AbsenceMark(item)
  {
    item[|"absent:"|..]
  }

  predicate LeavesRoot(prefix: string) { ".." <= prefix }

  /** `item.slice(prefix.length + 1)` */
  function Behind(item: string, prefix: string): string { if |item| > |prefix| then item[|prefix| + 1..] else "" }

  // ---------------------------------------------------------------- the guards

  function RealPrefix(input: Input): string { Relative(input.realRoot, input.realOut) }

  function StatePrefix(input: Input): string { Relative(input.root, input.out) }

  predicate Hidden(input: Input, prefix: string, item: string) {
    !AbsenceMark(item) && Under(item, prefix) && !input.engineGenerated(Behind(item, prefix))
  }

  /** The run-state directory does not swallow committed or declared inputs. */
  function Disjoint(input: Input): Option<Refusal> {
    var prefix := RealPrefix(input);
    if input.realOut == input.realRoot then Some(OverlapsRoot)
    else if prefix == "" || LeavesRoot(prefix) then None
    else if input.committed.Some? && exists c :: c in input.committed.value && Under(ToPosix(c), prefix)
    then Some(HidesCommitted)
    else if exists d :: d in input.declared && Hidden(input, prefix, d) then Some(HidesDeclared)
    else None
  }

  method AssertOutputDisjoint(input: Input) returns (r: Option<Refusal>)
    ensures r == Disjoint(input)
  {
    if input.realOut == input.realRoot { return Some(OverlapsRoot); }
    var prefix := RealPrefix(input);
    if prefix != "" && !LeavesRoot(prefix) {
      if input.committed.Some? {
        var committed := input.committed.value;
        for i := 0 to |committed|
          invariant forall k | 0 <= k < i :: !Under(ToPosix(committed[k]), prefix)
        {
          if Under(ToPosix(committed[i]), prefix) { return Some(HidesCommitted); }
        }
      }
    }
    if prefix == "" || LeavesRoot(prefix) { return None; }
    for i := 0 to |input.declared|
      invariant forall k | 0 <= k < i :: !Hidden(input, prefix, input.declared[k])
    {
      if Hidden(input, prefix, input.declared[i]) { return Some(HidesDeclared); }
    }
    return None;
  }

  predicate Overlaps(prefix: string, folder: string) {
    prefix != "" && (prefix == folder || folder + "/" <= prefix || prefix + "/" <= folder)
  }

  predicate CleanPath(path: string) {
    && path != "" && path[0] != '/' && '\\' !in path
    && forall s | s in Split(path, '/') :: s != "" && s != "." && s != ".."
  }

  /** The last `__pycache__` segment is the last but one, or there is one segment only and it is not `__pycache__`. */
  predicate Bytecode(path: string) {
    var segments := Split(path, '/');
    var n := |segments|;
    && segments[n - 1] != "__pycache__" && (n >= 2 ==> segments[n - 2] == "__pycache__")
    && (".pyc" == Tail(segments[n - 1], 4) || ".pyo" == Tail(segments[n - 1], 4))
  }

  function Tail(s: string, n: nat): string { if n <= |s| then s[|s| - n..] else s }

  function CheckDoc(input: Input, folder: string): Option<Refusal> {
    if !CleanPath(folder) then Some(InvalidDocs)
    else if Overlaps(StatePrefix(input), folder) then Some(DocsOverlapState)
    else if exists d :: d in input.declared && !AbsenceMark(d) && Under(d, folder) then Some(DocsOverlapInput)
    else None
  }

  function CheckCache(input: Input, file: string): Option<Refusal> {
    if !CleanPath(file) || !Bytecode(file) then Some(InvalidCache)
    else if Overlaps(StatePrefix(input), file) then Some(CacheOverlapsState)
    else if exists d :: d in input.declared && !AbsenceMark(d) && d == file then Some(CacheOverlapsInput)
    else None
  }

  function FirstRefusal(check: string -> Option<Refusal>, items: seq<string>): (r: Option<Refusal>)
    ensures r.None? <==> forall k | 0 <= k < |items| :: check(items[k]).None?
  {
    if items == [] then None
    else
      match FirstRefusal(check, items[..|items| - 1])
      case Some(x) => Some(x)
      case None => check(items[|items| - 1])
  }

  function DocsRefusal(input: Input): Option<Refusal> { FirstRefusal(d => CheckDoc(input, d), input.docs) }

  function CacheRefusal(input: Input): Option<Refusal> { FirstRefusal(c => CheckCache(input, c), input.cache) }

  method RefuseFirst(check: string -> Option<Refusal>, items: seq<string>) returns (r: Option<Refusal>)
    ensures r == FirstRefusal(check, items)
  {
    for i := 0 to |items|
      invariant FirstRefusal(check, items[..i]) == None
    {
      assert items[..i + 1][..i] == items[..i];
      var refusal := check(items[i]);
      if refusal.Some? {
        FirstStays(check, items, i + 1);
        return refusal;
      }
    }
    assert items[..|items|] == items;
    return None;
  }

  lemma {:induction false} FirstStays(check: string -> Option<Refusal>, items: seq<string>, n: nat)
    requires n <= |items| && FirstRefusal(check, items[..n]).Some?
    ensures FirstRefusal(check, items) == FirstRefusal(check, items[..n])
    decreases |items| - n
  {
    if n == |items| {
      assert items[..n] == items;
    } else {
      assert items[..n + 1][..n] == items[..n];
      FirstStays(check, items, n + 1);
    }
  }

  // ---------------------------------------------------------------- the inventory

  /** `[...new Set(items)]`: first occurrences, in order. */
  function Unique(items: seq<string>): seq<string> {
    if items == [] then []
    else
      var front, last := Unique(items[..|items| - 1]), items[|items| - 1];
      if last in front then front else front + [last]
  }

  lemma {:induction false} UniqueIsDistinct(items: seq<string>)
    ensures forall x :: x in Unique(items) <==> x in items
    ensures DistinctKeys(Order, Unique(items))
  {
    if items != [] {
      var front, last := items[..|items| - 1], items[|items| - 1];
      UniqueIsDistinct(front);
      assert items == front + [last];
      forall i | 0 <= i < |Unique(front)| && last !in Unique(front)
        ensures Order(Unique(front)[i]) != Order(last)
      {
        if Order(Unique(front)[i]) == Order(last) {
          UnitsInjective(Unique(front)[i], last);
        }
      }
    }
  }

  predicate Reused(input: Input, path: string) { exists m :: m in input.mounts && Under(path, m) }

  predicate InDocs(input: Input, path: string) { exists folder :: folder in input.docs && Under(path, folder) }

  predicate Listed(input: Input, item: string) {
    && !Reused(input, if AbsenceMark(item) then Label(item) else item)
    && (AbsenceMark(item) || (!InDocs(input, item) && item !in input.cache))
  }

  function Inventory(input: Input): seq<string> {
    SortOn(Order, Keep(item => Listed(input, item), Unique(input.declared + input.inventory)))
  }

  lemma InventoryMembers(input: Input)
    ensures forall x :: x in Inventory(input) <==> (x in input.declared || x in input.inventory) && Listed(input, x)
    ensures StrictlySorted(Order, Inventory(input))
  {
    var all := Unique(input.declared + input.inventory);
    UniqueIsDistinct(input.declared + input.inventory);
    KeepMembers(item => Listed(input, item), all);
    KeepDistinct(item => Listed(input, item), all);
    SortIsSorted(Order, Keep(item => Listed(input, item), all));
    SortIsStrict(Order, Keep(item => Listed(input, item), all));
  }

  lemma {:induction false} KeepDistinct(p: string -> bool, items: seq<string>)
    requires DistinctKeys(Order, items)
    ensures DistinctKeys(Order, Keep(p, items))
  {
    if items != [] {
      var front, last := items[..|items| - 1], items[|items| - 1];
      KeepDistinct(p, front);
      KeepMembers(p, front);
      forall i | 0 <= i < |Keep(p, front)|
        ensures Order(Keep(p, front)[i]) != Order(last)
      {
        assert Keep(p, front)[i] in front;
        var k :| 0 <= k < |front| && front[k] == Keep(p, front)[i];
        assert items[k] == front[k];
      }
    }
  }

  /** The entry of one inventory item; `None` when the state directory swallows it. */
  function EntryOf(input: Input, item: string): Option<Result<FileEntry, Refusal>> {
    var prefix := StatePrefix(input);
    if AbsenceMark(item) then Some(Ok(FileEntry(Label(item), Absent, input.absentDigest(Label(item)))))
    else if prefix != "" && Under(item, prefix) then None
    else
      match input.stat(item)
      case Err(e) => Some(Err(e))
      case Ok((kind, digest)) =>
        if kind == Deleted && item !in input.tracked then Some(Ok(FileEntry(item, Absent, input.absentDigest(item))))
        else Some(Ok(FileEntry(item, kind, digest)))
  }

  function EntriesOf(input: Input, items: seq<string>): Result<seq<FileEntry>, Refusal> {
    if items == [] then Ok([])
    else
      match EntriesOf(input, items[..|items| - 1])
      case Err(e) => Err(e)
      case Ok(front) =>
        match EntryOf(input, items[|items| - 1])
        case None => Ok(front)
        case Some(Err(e)) => Err(e)
        case Some(Ok(entry)) => Ok(front + [entry])
  }

  function Sort(r: Result<seq<FileEntry>, Refusal>): Result<seq<FileEntry>, Refusal> {
    match r
    case Err(e) => Err(e)
    case Ok(entries) => Ok(SortOn(PathKey, entries))
  }

  lemma {:induction false} ErrStays(input: Input, items: seq<string>, n: nat)
    requires n <= |items| && EntriesOf(input, items[..n]).Err?
    ensures EntriesOf(input, items) == EntriesOf(input, items[..n])
    decreases |items| - n
  {
    if n == |items| {
      assert items[..n] == items;
    } else {
      assert items[..n + 1][..n] == items[..n];
      ErrStays(input, items, n + 1);
    }
  }

  method BuildFileEntries(input: Input, inventory: seq<string>) returns (r: Result<seq<FileEntry>, Refusal>)
    ensures r == Sort(EntriesOf(input, inventory))
  {
    var prefix := StatePrefix(input);
    var entries: seq<FileEntry> := [];
    for i := 0 to |inventory|
      invariant EntriesOf(input, inventory[..i]) == Ok(entries)
    {
      var item := inventory[i];
      assert inventory[..i + 1][..i] == inventory[..i];
      if AbsenceMark(item) {
        entries := entries + [FileEntry(Label(item), Absent, input.absentDigest(Label(item)))];
        continue;
      }
      if prefix != "" && Under(item, prefix) { continue; }
      var stat := input.stat(item);
      if stat.Err? {
        ErrStays(input, inventory, i + 1);
        return Err(stat.error);
      }
      if stat.value.0 == Deleted && item !in input.tracked {
        entries := entries + [FileEntry(item, Absent, input.absentDigest(item))];
        continue;
      }
      entries := entries + [FileEntry(item, stat.value.0, stat.value.1)];
    }
    assert inventory[..|inventory|] == inventory;
    return Ok(SortOn(PathKey, entries));
  }

  function Collected(input: Input): Result<seq<FileEntry>, Refusal> {
    match Disjoint(input)
    case Some(e) => Err(e)
    case None =>
      match DocsRefusal(input)
      case Some(e) => Err(e)
      case None =>
        match CacheRefusal(input)
        case Some(e) => Err(e)
        case None =>
          if !input.mountsValid then Err(BadMounts) else Sort(EntriesOf(input, Inventory(input)))
  }

  method CollectInputFiles(input: Input) returns (r: Result<seq<FileEntry>, Refusal>)
    ensures r == Collected(input)
  {
    var overlap := AssertOutputDisjoint(input);
    if overlap.Some? { return Err(overlap.value); }
    var docs := RefuseFirst(d => CheckDoc(input, d), input.docs);
    if docs.Some? { return Err(docs.value); }
    var cache := RefuseFirst(c => CheckCache(input, c), input.cache);
    if cache.Some? { return Err(cache.value); }
    if !input.mountsValid { return Err(BadMounts); }
    r := BuildFileEntries(input, Inventory(input));
  }

  // ---------------------------------------------------------------- no declared input vanishes

  lemma {:induction false} EntriesMembers(input: Input, items: seq<string>)
    requires EntriesOf(input, items).Ok?
    ensures forall item | item in items :: EntryOf(input, item).Some? ==>
              EntryOf(input, item).value.Ok? && EntryOf(input, item).value.value in EntriesOf(input, items).value
    ensures forall e | e in EntriesOf(input, items).value ::
              exists item :: item in items && EntryOf(input, item) == Some(Ok(e))
  {
    if items != [] {
      var front, last := items[..|items| - 1], items[|items| - 1];
      EntriesMembers(input, front);
      assert items == front + [last];
    }
  }

  /** The files of a snapshot: one entry for every listed item outside the state directory, and nothing else. */
  lemma CollectedMembers(input: Input)
    requires Collected(input).Ok?
    ensures forall item | (item in input.declared || item in input.inventory) && Listed(input, item) ::
              EntryOf(input, item).Some? ==>
                EntryOf(input, item).value.Ok? && EntryOf(input, item).value.value in Collected(input).value
    ensures forall e | e in Collected(input).value ::
              exists item :: (item in input.declared || item in input.inventory)
                             && Listed(input, item) && EntryOf(input, item) == Some(Ok(e))
    ensures Sorted(PathKey, Collected(input).value)
  {
    InventoryMembers(input);
    EntriesMembers(input, Inventory(input));
    SortIsSorted(PathKey, EntriesOf(input, Inventory(input)).value);
  }

  ghost predicate HasEntry(input: Input, path: string)
    requires Collected(input).Ok?
  {
    exists e :: e in Collected(input).value && e.path == path
  }

  /** A declared input that is there is neither documentation nor bytecode the owner may leave out. */
  lemma DeclaredIsNotExcluded(input: Input, d: string)
    requires Collected(input).Ok? && d in input.declared && !AbsenceMark(d)
    ensures !InDocs(input, d) && d !in input.cache
  {
  }

  /**
   * Exactly when a declared input has an entry: unless an approved dependency mount supplies it, every declared input
   * that is there has one if and only if it is not under the run-state directory.
   */
  lemma DeclaredHasEntry(input: Input, d: string)
    requires Collected(input).Ok? && d in input.declared && !AbsenceMark(d) && !Reused(input, d)
    ensures EntryOf(input, d).Some? ==> HasEntry(input, d)
    ensures EntryOf(input, d).None? <==> StatePrefix(input) != "" && Under(d, StatePrefix(input))
  {
    DeclaredIsNotExcluded(input, d);
    CollectedMembers(input);
  }

  /** A path under the state directory that the engine itself generates there. */
  predicate Generated(input: Input, d: string) {
    var prefix := StatePrefix(input);
    Under(d, prefix) && input.engineGenerated(Behind(d, prefix))
  }

  /** An absence mark stands for the path. */
  predicate MarkedAbsent(input: Input, d: string) {
    ("absent:" + d) in input.declared || ("absent:" + d) in input.inventory
  }

  /** The overlap guard is off, and the state directory swallows the path. */
  predicate Swallowed(input: Input, d: string) {
    var prefix := StatePrefix(input);
    LeavesRoot(prefix) && Under(d, prefix) && !Generated(input, d) && !MarkedAbsent(input, d)
  }

  lemma AbsenceMarkHasEntry(input: Input, d: string)
    requires Collected(input).Ok? && MarkedAbsent(input, d) && !Reused(input, d)
    ensures HasEntry(input, d)
  {
    var mark := "absent:" + d;
    assert Label(mark) == d;
    assert Listed(input, mark);
    assert EntryOf(input, mark) == Some(Ok(FileEntry(d, Absent, input.absentDigest(d))));
    CollectedMembers(input);
  }

  /**
   * Exactly when a declared input vanishes, with real paths equal to lexical ones: it lies under a state directory
   * whose relative path starts with the two characters `..`. Any other declared input has an entry or is a path the
   * engine itself generates under the state directory.
   */
  lemma NoDeclaredInputVanishes(input: Input, d: string)
    requires Collected(input).Ok? && RealPrefix(input) == StatePrefix(input)
    requires d in input.declared && !AbsenceMark(d) && !Reused(input, d)
    ensures HasEntry(input, d) || Generated(input, d) <==> !Swallowed(input, d)
  {
    DeclaredHasEntry(input, d);
    if EntryOf(input, d).None? {
      if MarkedAbsent(input, d) {
        AbsenceMarkHasEntry(input, d);
      } else if HasEntry(input, d) {
        OnlyAbsenceHasEntry(input, d);
      }
    }
  }

  /** The same for committed files: none lies under the state directory, unless the guard is off and asks for none. */
  lemma NoCommittedFileIsHidden(input: Input, committed: Option<seq<string>>)
    requires RealPrefix(input) == StatePrefix(input) != ""
    ensures Collected(input).Ok? && !LeavesRoot(StatePrefix(input)) && input.committed.Some? ==>
              forall c | c in input.committed.value :: !Under(ToPosix(c), StatePrefix(input))
    ensures LeavesRoot(StatePrefix(input)) ==> Collected(input.(committed := committed)) == Collected(input)
  {
    var input' := input.(committed := committed);
    if LeavesRoot(StatePrefix(input)) {
      OnlyTheCommitDiffers(input, input');
    }
  }

  lemma OnlyTheCommitDiffers(input: Input, input': Input)
    requires input' == input.(committed := input'.committed) && LeavesRoot(RealPrefix(input))
    ensures Collected(input') == Collected(input)
  {
    assert Disjoint(input') == Disjoint(input);
    SameRefusals(input, input');
    assert Unique(input'.declared + input'.inventory) == Unique(input.declared + input.inventory);
    SameKeep(item => Listed(input, item), item => Listed(input', item), Unique(input.declared + input.inventory));
    assert Inventory(input') == Inventory(input);
    SameEntries(input, input', Inventory(input));
  }

  lemma {:induction false} AllOk(input: Input, items: seq<string>)
    requires forall item | item in items :: EntryOf(input, item).Some? ==> EntryOf(input, item).value.Ok?
    ensures EntriesOf(input, items).Ok?
  {
    if items != [] {
      AllOk(input, items[..|items| - 1]);
    }
  }

  /** An exclusion that covers a path under the state directory overlaps that directory. */
  lemma ExclusionsStayDisjoint(prefix: string, rest: string, folder: string)
    requires prefix != ""
    ensures Under(prefix + "/" + rest, folder) ==> Overlaps(prefix, folder)
  {
    var d := prefix + "/" + rest;
    if d == folder {
      assert prefix + "/" <= folder;
    } else if folder + "/" <= d {
      var n := |folder|;
      assert d[..n + 1] == folder + "/";
      if n < |prefix| {
        assert prefix[..n + 1] == d[..n + 1];
      } else if n == |prefix| {
        assert prefix == d[..n] == folder;
      } else {
        assert folder[..|prefix| + 1] == d[..|prefix| + 1] == prefix + "/";
      }
    }
  }

  lemma BelowDotDot(prefix: string, rest: string)
    requires LeavesRoot(prefix)
    ensures !AbsenceMark(prefix + "/" + rest) && Under(prefix + "/" + rest, prefix)
  {
    assert (prefix + "/" + rest)[0] == '.';
    assert (prefix + "/" + rest)[..|prefix| + 1] == prefix + "/";
  }

  /**
   * The failing family: a state directory whose relative path starts with `..`, be it outside the repository or inside
   * under a name such as `..state`, switches the overlap guard off. Any input declared below it is accepted, and it is
   * swallowed unless an absence mark stands for it or the engine generates it.
   */
  lemma DotDotPrefixHidesInputs(input: Input, rest: string)
    requires Collected(input).Ok? && RealPrefix(input) == StatePrefix(input)
    requires LeavesRoot(StatePrefix(input))
    ensures var d := StatePrefix(input) + "/" + rest;
      var input' := input.(declared := input.declared + [d]);
      && Collected(input').Ok?
      && EntryOf(input', d) == None
      && (!MarkedAbsent(input, d) ==> !HasEntry(input', d))
  {
    var prefix := StatePrefix(input);
    var d := prefix + "/" + rest;
    BelowDotDot(prefix, rest);
    GuardsStillPass(input, d, prefix, rest);
    assert EntryOf(input, d) == None;
    SwallowedItemIsHarmless(input, d);
  }

  /** A repository at `/r` that declares its configuration file and one document. */
  function Example(config: string, out: seq<string>, document: string): Input {
    Input(["r"], out, ["r"], out, [config, document], Some([config]), [], [], [], true, [config], {config},
          (path: string) => Ok((File, path)), (path: string) => path, (path: string) => false)
  }

  lemma ExampleIsAccepted(config: string, out: seq<string>, document: string)
    requires out != ["r"] && LeavesRoot(Relative(["r"], out))
    ensures Collected(Example(config, out, document)).Ok?
  {
    var input := Example(config, out, document);
    assert Disjoint(input) == None;
    AllOk(input, Inventory(input));
  }

  lemma ExampleHides(config: string, out: seq<string>, d: string)
    requires Collected(Example(config, out, d)).Ok? && LeavesRoot(Relative(["r"], out))
    requires !AbsenceMark(d) && Under(d, Relative(["r"], out)) && config != "absent:" + d
    ensures !HasEntry(Example(config, out, d), d)
  {
    assert |"absent:" + d| > |d|;
    assert !MarkedAbsent(Example(config, out, d), d);
    NoDeclaredInputVanishes(Example(config, out, d), d);
  }

  lemma ExampleKeeps(config: string, out: seq<string>, d: string)
    requires Collected(Example(config, out, d)).Ok? && LeavesRoot(Relative(["r"], out))
    requires !AbsenceMark(config) && !LeavesRoot(config)
    ensures HasEntry(Example(config, out, d), config)
  {
    assert Example(config, out, d).declared[0] == config;
    NoDeclaredInputVanishes(Example(config, out, d), config);
  }

  lemma DocumentVanishes(config: string, out: seq<string>, prefix: string, rest: string)
    requires out != ["r"] && Relative(["r"], out) == prefix && LeavesRoot(prefix)
    requires |config| > 1 && config[0] == '.' && config[1] != '.'
    ensures var input := Example(config, out, prefix + "/" + rest);
      Collected(input).Ok? && HasEntry(input, config) && !HasEntry(input, prefix + "/" + rest)
  {
    var d := prefix + "/" + rest;
    ExampleIsAccepted(config, out, d);
    BelowDotDot(prefix, rest);
    assert ("absent:" + d)[0] == 'a' && ".."[1] == '.';
    ExampleHides(config, out, d);
    ExampleKeeps(config, out, d);
  }

  /** With `--out ..state`, a directory inside the repository, the snapshot lacks a document declared below it. */
  lemma InsideDocumentVanishes()
    ensures var input := Example(".gateforge.yml", ["r", "..state"], "..state/x");
      Collected(input).Ok? && HasEntry(input, ".gateforge.yml") && !HasEntry(input, "..state/x")
  {
    RelativeInside(["r"], ["..state"]);
    assert ["r"] + ["..state"] == ["r", "..state"];
    assert ToPosix("..state") == "..state";
    DocumentVanishes(".gateforge.yml", ["r", "..state"], "..state", "x");
    assert "..state" + "/" + "x" == "..state/x";
  }

  /** With `--out ../s`, a directory beside the repository, it lacks a policy document declared as `../s/p`. */
  lemma OutsideDocumentVanishes()
    ensures var input := Example(".gateforge.yml", ["s"], "../s/p");
      Collected(input).Ok? && HasEntry(input, ".gateforge.yml") && !HasEntry(input, "../s/p")
  {
    assert seq(1, _ => "..") + ["s"] == ["..", "s"] && ["s"][0] != "r";
    assert ToPosix(Join(["..", "s"], '/')) == "../s";
    DocumentVanishes(".gateforge.yml", ["s"], "../s", "p");
    assert "../s" + "/" + "p" == "../s/p";
  }

  lemma EntryPath(input: Input, item: string, e: FileEntry)
    requires EntryOf(input, item) == Some(Ok(e))
    ensures item == (if AbsenceMark(item) then "absent:" + e.path else e.path)
  {
  }

  lemma EntrySource(input: Input, e: FileEntry) returns (item: string)
    requires Collected(input).Ok? && e in Collected(input).value
    ensures item in input.declared || item in input.inventory
    ensures EntryOf(input, item) == Some(Ok(e))
  {
    CollectedMembers(input);
    item :| (item in input.declared || item in input.inventory)
            && Listed(input, item) && EntryOf(input, item) == Some(Ok(e));
  }

  lemma OnlyAbsenceHasEntry(input: Input, d: string)
    requires EntryOf(input, d) == None && !AbsenceMark(d)
    requires Collected(input).Ok? && HasEntry(input, d)
    ensures MarkedAbsent(input, d)
  {
    var e :| e in Collected(input).value && e.path == d;
    var item := EntrySource(input, e);
    EntryPath(input, item, e);
  }

  lemma ListedAreOk(input: Input, item: string)
    requires Collected(input).Ok? && (item in input.declared || item in input.inventory) && Listed(input, item)
    ensures EntryOf(input, item).Some? ==> EntryOf(input, item).value.Ok?
  {
    CollectedMembers(input);
  }

  /** One more declared path that the state directory swallows is accepted and has no entry. */
  lemma SwallowedItemIsHarmless(input: Input, d: string)
    requires Collected(input).Ok? && !AbsenceMark(d) && EntryOf(input, d) == None
    requires var input' := input.(declared := input.declared + [d]);
      Disjoint(input') == None && DocsRefusal(input') == None && CacheRefusal(input') == None
    ensures var input' := input.(declared := input.declared + [d]);
      && Collected(input').Ok?
      && (!MarkedAbsent(input, d) ==> !HasEntry(input', d))
  {
    var input' := input.(declared := input.declared + [d]);
    SwallowedIsAccepted(input, d, input');
    if HasEntry(input', d) {
      OnlyAbsenceHasEntry(input', d);
    }
  }

  lemma SwallowedIsAccepted(input: Input, d: string, input': Input)
    requires Collected(input).Ok? && EntryOf(input, d) == None
    requires input' == input.(declared := input.declared + [d])
    requires Disjoint(input') == None && DocsRefusal(input') == None && CacheRefusal(input') == None
    ensures Collected(input').Ok?
  {
    InventoryMembers(input');
    forall item | item in Inventory(input')
      ensures EntryOf(input', item).Some? ==> EntryOf(input', item).value.Ok?
    {
      assert EntryOf(input', item) == EntryOf(input, item);
      if item != d {
        assert Listed(input', item) == Listed(input, item);
        ListedAreOk(input, item);
      }
    }
    AllOk(input', Inventory(input'));
  }

  lemma GuardsStillPass(input: Input, d: string, prefix: string, rest: string)
    requires Collected(input).Ok? && RealPrefix(input) == StatePrefix(input) == prefix && LeavesRoot(prefix)
    requires d == prefix + "/" + rest
    ensures var input' := input.(declared := input.declared + [d]);
      Disjoint(input') == None && DocsRefusal(input') == None && CacheRefusal(input') == None
  {
    var input' := input.(declared := input.declared + [d]);
    forall k | 0 <= k < |input.docs|
      ensures CheckDoc(input', input.docs[k]).None?
    {
      assert CheckDoc(input, input.docs[k]).None?;
      ExclusionsStayDisjoint(prefix, rest, input.docs[k]);
    }
    forall k | 0 <= k < |input.cache|
      ensures CheckCache(input', input.cache[k]).None?
    {
      assert CheckCache(input, input.cache[k]).None?;
      ExclusionsStayDisjoint(prefix, rest, input.cache[k]);
    }
  }

  /** What the relative path of a directory inside the repository is. */
  lemma RelativeInside(root: seq<string>, names: seq<string>)
    ensures Relative(root, root + names) == ToPosix(Join(names, '/'))
  {
    var n := CommonLength(root, root + names);
    assert forall k | 0 <= k < |root| :: root[k] == (root + names)[k];
    assert n == |root|;
    assert seq(|root| - n, _ => "..") + (root + names)[n..] == names;
  }

  // ---------------------------------------------------------------- the snapshot does not depend on order

  ghost predicate SameItems(a: seq<string>, b: seq<string>) { forall x :: x in a <==> x in b }

  lemma SameInventory(input: Input, input': Input)
    requires input' == input.(declared := input'.declared, inventory := input'.inventory)
    requires SameItems(input.declared, input'.declared) && SameItems(input.inventory, input'.inventory)
    ensures Inventory(input') == Inventory(input)
  {
    InventoryMembers(input);
    InventoryMembers(input');
    assert forall x :: Listed(input', x) == Listed(input, x);
    StrictlySortedUnique(Order, Inventory(input), Inventory(input'));
  }

  /** Listing the same declared and tracked paths in another order, or twice, gives the same snapshot. */
  lemma OrderDoesNotMatter(input: Input, input': Input)
    requires input' == input.(declared := input'.declared, inventory := input'.inventory)
    requires SameItems(input.declared, input'.declared) && SameItems(input.inventory, input'.inventory)
    ensures Collected(input') == Collected(input)
  {
    SameInventory(input, input');
    assert Disjoint(input') == Disjoint(input);
    SameRefusals(input, input');
    SameEntries(input, input', Inventory(input));
  }

  lemma SameRefusals(input: Input, input': Input)
    requires input' == input.(declared := input'.declared, inventory := input'.inventory, committed := input'.committed)
    requires SameItems(input.declared, input'.declared)
    ensures DocsRefusal(input') == DocsRefusal(input) && CacheRefusal(input') == CacheRefusal(input)
  {
    SameFirst(d => CheckDoc(input, d), d => CheckDoc(input', d), input.docs);
    SameFirst(c => CheckCache(input, c), c => CheckCache(input', c), input.cache);
  }

  lemma {:induction false} SameFirst(check: string -> Option<Refusal>, check': string -> Option<Refusal>,
                                     items: seq<string>)
    requires forall x | x in items :: check'(x) == check(x)
    ensures FirstRefusal(check', items) == FirstRefusal(check, items)
  {
    if items != [] {
      SameFirst(check, check', items[..|items| - 1]);
    }
  }

  lemma {:induction false} SameEntries(input: Input, input': Input, items: seq<string>)
    requires input' == input.(declared := input'.declared, inventory := input'.inventory, committed := input'.committed)
    ensures EntriesOf(input', items) == EntriesOf(input, items)
  {
    if items != [] {
      SameEntries(input, input', items[..|items| - 1]);
    }
  }
}
