/** The stack walk that turns a workspace into candidate-tree entries. */
module WorkspaceWalk {
  import opened Text
  import opened Sorting
  import opened GitObjects
  import opened MerkleTree
  import M = MerkleTree

  /** What `lstat` reports, with file bytes and link targets at hand. */
  datatype Node =
    | File(executable: bool, bytes: Bytes)
    | Link(target: string)
    | Dir(entries: Listing)
    | Special

  /** A directory as `readSync` yields it, one entry at a time. */
  datatype Listing = End | Entry(name: string, node: Node, rest: Listing)

  datatype Config = Config(
    excludePrefix: Option<string>,
    recordSymlinks: bool,
    mounts: seq<string>,
    docs: seq<string>,
    cache: seq<string>,
    ignoredByGit: string -> bool,
    cacheDirectory: (string, string) -> bool)

  const DEFAULT_CACHE := ".gateforge/test-gates/cache"
  const CI_WITNESSED := ".gateforge/ci-witnessed"
  const MOUNT_MARKER := "gateforge-runtime-reuse-mount:v1:"

  function Rel(p: Path): string { Join(p, '/') }

  /** A path equals `folder` or lies inside it. */
  predicate Excluded(cfg: Config, rel: string) {
    || (cfg.excludePrefix.Some? && Under(rel, cfg.excludePrefix.value))
    || Under(rel, DEFAULT_CACHE)
    || (Under(rel, CI_WITNESSED) && cfg.ignoredByGit(rel))
    || (exists f | f in cfg.docs :: Under(rel, f))
    || rel in cfg.cache
  }

  // ---------------------------------------------------------------- the run-state prefix

  function ToPosix(s: string): string {
    if s == [] then [] else [if s[0] == '\\' then '/' else s[0]] + ToPosix(s[1..])
  }

  function Trimmed(s: string): string {
    if s != [] && s[|s| - 1] == '/' then Trimmed(s[..|s| - 1]) else s
  }

  /** Only a directory strictly inside the workspace is excluded; the root itself is refused. */
  function ExcludePrefix(excludeDir: Option<string>, workspace: string): Result<Option<string>, ()> {
    match excludeDir
    case None => Ok(None)
    case Some(dir) =>
      var rel, root := Trimmed(ToPosix(dir)), Trimmed(ToPosix(workspace));
      if rel == root then Err(())
      else if root + "/" <= rel then Ok(Some(rel[|root| + 1..]))
      else Ok(None)
  }

  // ---------------------------------------------------------------- one directory entry

  datatype Step = Skip | Refuse | Descend | Emit(mode: Mode, blob: Bytes)

  /** An approved documentation folder holds only regular files and directories. */
  predicate DocsClean(entries: Listing) {
    match entries
    case End => true
    case Entry(_, node, rest) =>
      (match node case File(_, _) => true case Dir(inner) => DocsClean(inner) case _ => false) && DocsClean(rest)
  }

  /** What the walk does with the entry `name` found in directory `dir`. */
  function StepOf(cfg: Config, dir: Path, name: string, node: Node): Step {
    var rel := Rel(dir + [name]);
    if name == "." || name == ".." then Skip
    else if name == ".git" then (if dir == [] then Skip else Refuse)
    else if rel in cfg.cache then (if node.File? then Skip else Refuse)
    else if rel in cfg.docs then (if node.Dir? && DocsClean(node.entries) then Skip else Refuse)
    else
      match node
      case Link(target) =>
        if rel in cfg.mounts then Emit(Symlink, Utf8(MOUNT_MARKER + rel))
        else if cfg.recordSymlinks then Emit(Symlink, Utf8(target))
        else Refuse
      case Dir(_) => if cfg.cacheDirectory(Rel(dir), name) then Skip else Descend
      case Special => Refuse
      case File(executable, bytes) => Emit(if executable then Executable else Regular, bytes)
  }

  // ---------------------------------------------------------------- declarative meaning

  function Find(entries: Listing, name: string): Option<Node> {
    match entries
    case End => None
    case Entry(n, node, rest) => if n == name then Some(node) else Find(rest, name)
  }

  /** File systems list each name once, and names are real. */
  predicate RealListing(entries: Listing) {
    match entries
    case End => true
    case Entry(name, node, rest) =>
      ValidName(name) && Find(rest, name).None? && (node.Dir? ==> RealListing(node.entries)) && RealListing(rest)
  }

  function Lookup(entries: Listing, p: Path): Option<Node>
    decreases |p|
  {
    if p == [] then Some(Dir(entries))
    else
      match Find(entries, p[0])
      case None => None
      case Some(node) =>
        if |p| == 1 then Some(node) else if node.Dir? then Lookup(node.entries, p[1..]) else None
  }

  function Parent(p: Path): Path { if p == [] then [] else p[..|p| - 1] }

  /** The walk reads directory `at + p`, where `entries` is the listing of `at`. */
  ghost predicate Open(cfg: Config, at: Path, entries: Listing, p: Path)
    requires p != []
  {
    match Lookup(entries, p)
    case Some(node) =>
      && node.Dir?
      && StepOf(cfg, at + Parent(p), p[|p| - 1], node) == Descend
      && !Excluded(cfg, Rel(at + p))
    case None => false
  }

  /** Every directory strictly between `at` and `at + p` is read. */
  ghost predicate Reached(cfg: Config, at: Path, entries: Listing, p: Path) {
    forall k | 1 <= k < |p| :: Open(cfg, at, entries, p[..k])
  }

  ghost predicate StepsTo(cfg: Config, at: Path, entries: Listing, p: Path, step: Step) {
    && p != []
    && Reached(cfg, at, entries, p)
    && Lookup(entries, p).Some?
    && StepOf(cfg, at + Parent(p), p[|p| - 1], Lookup(entries, p).value) == step
  }

  /** The entry at `at + p` is emitted with this mode and this blob id. */
  ghost predicate Emits(cfg: Config, hash: Bytes -> Oid, at: Path, entries: Listing, p: Path, mode: Mode, sha: Oid) {
    exists blob :: StepsTo(cfg, at, entries, p, Emit(mode, blob)) && sha == hash(Frame("blob", blob))
  }

  /** The entry belongs in the candidate tree. */
  ghost predicate Included(cfg: Config, hash: Bytes -> Oid, root: Listing, e: M.Entry) {
    !Excluded(cfg, "") && Emits(cfg, hash, [], root, e.path, e.mode, e.sha)
  }

  /** The walk meets something it must refuse. */
  ghost predicate Refused(cfg: Config, root: Listing, p: Path) {
    !Excluded(cfg, "") && StepsTo(cfg, [], root, p, Refuse)
  }

  // ---------------------------------------------------------------- compositional meaning

  function EntryAt(hash: Bytes -> Oid, dir: Path, name: string, mode: Mode, blob: Bytes): M.Entry {
    M.Entry(mode, hash(Frame("blob", blob)), dir + [name])
  }

  /** Everything the walk emits below the listing `entries` of directory `dir`. */
  function Gather(cfg: Config, hash: Bytes -> Oid, dir: Path, entries: Listing): multiset<M.Entry>
    decreases entries
  {
    match entries
    case End => multiset{}
    case Entry(name, node, rest) => GatherOne(cfg, hash, dir, name, node) + Gather(cfg, hash, dir, rest)
  }

  function GatherOne(cfg: Config, hash: Bytes -> Oid, dir: Path, name: string, node: Node): multiset<M.Entry>
    decreases node
  {
    match StepOf(cfg, dir, name, node)
    case Emit(mode, blob) => multiset{EntryAt(hash, dir, name, mode, blob)}
    case Descend =>
      if node.Dir? && !Excluded(cfg, Rel(dir + [name])) then Gather(cfg, hash, dir + [name], node.entries)
      else multiset{}
    case _ => multiset{}
  }

  /** Every path at which the walk must refuse. */
  function Faults(cfg: Config, dir: Path, entries: Listing): set<Path>
    decreases entries
  {
    match entries
    case End => {}
    case Entry(name, node, rest) => FaultsOne(cfg, dir, name, node) + Faults(cfg, dir, rest)
  }

  function FaultsOne(cfg: Config, dir: Path, name: string, node: Node): set<Path>
    decreases node
  {
    match StepOf(cfg, dir, name, node)
    case Refuse => {dir + [name]}
    case Descend =>
      if node.Dir? && !Excluded(cfg, Rel(dir + [name])) then Faults(cfg, dir + [name], node.entries) else {}
    case _ => {}
  }

  // ---------------------------------------------------------------- the two meanings agree

  lemma OnePaths(cfg: Config, hash: Bytes -> Oid, dir: Path, name: string, node: Node, e: M.Entry)
    requires e in GatherOne(cfg, hash, dir, name, node)
    ensures |dir| < |e.path| && e.path[..|dir| + 1] == dir + [name] && e.path[|dir|] == name
    decreases node, 1
  {
    if StepOf(cfg, dir, name, node).Descend? {
      GatherPaths(cfg, hash, dir + [name], node.entries, e);
      assert e.path[..|dir| + 1] == dir + [name];
      assert (dir + [name])[|dir|] == name;
    }
  }

  lemma GatherPaths(cfg: Config, hash: Bytes -> Oid, dir: Path, entries: Listing, e: M.Entry)
    requires e in Gather(cfg, hash, dir, entries)
    ensures |dir| < |e.path| && e.path[..|dir|] == dir
    decreases entries, 0
  {
    if e in GatherOne(cfg, hash, dir, entries.name, entries.node) {
      OnePaths(cfg, hash, dir, entries.name, entries.node, e);
      assert e.path[..|dir|] == e.path[..|dir| + 1][..|dir|] == dir;
    } else {
      GatherPaths(cfg, hash, dir, entries.rest, e);
    }
  }

  /** Only the child named by the path's next name can contribute to an entry. */
  lemma {:induction false} GatherFinds(cfg: Config, hash: Bytes -> Oid, dir: Path, entries: Listing, e: M.Entry)
    requires RealListing(entries)
    requires |dir| < |e.path| && e.path[..|dir|] == dir
    ensures
      match Find(entries, e.path[|dir|])
      case None => Gather(cfg, hash, dir, entries)[e] == 0
      case Some(node) => Gather(cfg, hash, dir, entries)[e] == GatherOne(cfg, hash, dir, e.path[|dir|], node)[e]
    decreases entries
  {
    if entries.Entry? {
      GatherFinds(cfg, hash, dir, entries.rest, e);
      if entries.name != e.path[|dir|] && e in GatherOne(cfg, hash, dir, entries.name, entries.node) {
        OnePaths(cfg, hash, dir, entries.name, entries.node, e);
      }
    }
  }

  /** No entry is emitted twice. */
  lemma {:induction false} GatherOnce(cfg: Config, hash: Bytes -> Oid, dir: Path, entries: Listing, e: M.Entry)
    requires RealListing(entries)
    ensures Gather(cfg, hash, dir, entries)[e] <= 1
    decreases |e.path| - |dir|
  {
    if e in Gather(cfg, hash, dir, entries) {
      GatherPaths(cfg, hash, dir, entries, e);
      GatherFinds(cfg, hash, dir, entries, e);
      var name := e.path[|dir|];
      var node := Find(entries, name).value;
      FoundIsReal(entries, name);
      if node.Dir? && e in GatherOne(cfg, hash, dir, name, node) {
        GatherOnce(cfg, hash, dir + [name], node.entries, e);
      }
    }
  }

  lemma {:induction false} FoundIsReal(entries: Listing, name: string)
    requires RealListing(entries) && Find(entries, name).Some?
    ensures ValidName(name)
    ensures Find(entries, name).value.Dir? ==> RealListing(Find(entries, name).value.entries)
    decreases entries
  {
    if entries.name != name {
      FoundIsReal(entries.rest, name);
    }
  }

  /** A beginning of the path, seen from its first directory. */
  lemma BeginningBelow(at: Path, entries: Listing, p: Path, k: nat)
    requires 2 <= k <= |p| && Find(entries, p[0]).Some? && Find(entries, p[0]).value.Dir?
    ensures var inner, head, tail := Find(entries, p[0]).value.entries, p[..1], p[1..];
      && Lookup(entries, p[..k]) == Lookup(inner, tail[..k - 1])
      && at + p[..k] == at + head + tail[..k - 1]
      && at + Parent(p[..k]) == at + head + Parent(tail[..k - 1])
  {
    var head, tail := p[..1], p[1..];
    assert p[..k][0] == p[0] && p[..k][1..] == tail[..k - 1];
    assert p[..k][..k - 1] == head + tail[..k - 1][..k - 2];
  }

  /** Stepping into the first directory of the path. */
  lemma StepsToCons(cfg: Config, at: Path, entries: Listing, p: Path, step: Step)
    requires |p| > 1
    ensures StepsTo(cfg, at, entries, p, step) <==>
              Open(cfg, at, entries, p[..1])
              && StepsTo(cfg, at + p[..1], Find(entries, p[0]).value.entries, p[1..], step)
  {
    if Find(entries, p[0]).Some? && Find(entries, p[0]).value.Dir? {
      var inner := Find(entries, p[0]).value.entries;
      var head, tail := p[..1], p[1..];
      forall k | 2 <= k <= |p|
        ensures Lookup(entries, p[..k]) == Lookup(inner, tail[..k - 1])
        ensures at + p[..k] == at + head + tail[..k - 1]
        ensures at + Parent(p[..k]) == at + head + Parent(tail[..k - 1])
      {
        BeginningBelow(at, entries, p, k);
      }
      forall k | 2 <= k < |p|
        ensures Open(cfg, at, entries, p[..k]) <==> Open(cfg, at + head, inner, tail[..k - 1])
      {
        assert p[..k][k - 1] == tail[..k - 1][k - 2];
      }
      assert p[..|p|] == p && tail[..|p| - 1] == tail;
      if Reached(cfg, at, entries, p) {
        forall k | 1 <= k < |tail|
          ensures Open(cfg, at + head, inner, tail[..k])
        {
          assert Open(cfg, at, entries, p[..k + 1]);
          assert tail[..(k + 1) - 1] == tail[..k];
        }
      }
      if Open(cfg, at, entries, head) && Reached(cfg, at + head, inner, tail) {
        forall k | 1 <= k < |p|
          ensures Open(cfg, at, entries, p[..k])
        {
          if k > 1 { assert Open(cfg, at + head, inner, tail[..k - 1]); }
        }
      }
    } else {
      assert p[..1][0] == p[0];
    }
  }

  lemma EmitsHere(cfg: Config, hash: Bytes -> Oid, at: Path, entries: Listing, p: Path, mode: Mode, sha: Oid)
    requires RealListing(entries) && |p| == 1 && Find(entries, p[0]).Some?
    ensures M.Entry(mode, sha, at + p) in GatherOne(cfg, hash, at, p[0], Find(entries, p[0]).value)
       <==> Emits(cfg, hash, at, entries, p, mode, sha)
  {
    var e, node := M.Entry(mode, sha, at + p), Find(entries, p[0]).value;
    assert p == [p[0]] && Parent(p) == [] && at + Parent(p) == at;
    if e in GatherOne(cfg, hash, at, p[0], node) && StepOf(cfg, at, p[0], node).Descend? {
      GatherPaths(cfg, hash, at + [p[0]], node.entries, e);
    }
    assert Lookup(entries, p) == Some(node);
  }

  lemma EmitsBelow(cfg: Config, hash: Bytes -> Oid, at: Path, entries: Listing, p: Path, mode: Mode, sha: Oid)
    requires |p| > 1
    ensures Emits(cfg, hash, at, entries, p, mode, sha)
       <==> Open(cfg, at, entries, p[..1])
            && Emits(cfg, hash, at + p[..1], Find(entries, p[0]).value.entries, p[1..], mode, sha)
  {
    forall blob {
      StepsToCons(cfg, at, entries, p, Emit(mode, blob));
    }
  }

  /** An entry is emitted exactly when every directory above it is read and it steps to `Emit`. */
  lemma {:induction false} GatherMeaning(
      cfg: Config, hash: Bytes -> Oid, at: Path, entries: Listing, p: Path, mode: Mode, sha: Oid)
    requires RealListing(entries) && p != []
    ensures M.Entry(mode, sha, at + p) in Gather(cfg, hash, at, entries)
       <==> Emits(cfg, hash, at, entries, p, mode, sha)
    decreases |p|
  {
    var e := M.Entry(mode, sha, at + p);
    assert e.path[..|at|] == at && e.path[|at|] == p[0];
    GatherFinds(cfg, hash, at, entries, e);
    if Find(entries, p[0]).None? {
    } else if |p| == 1 {
      EmitsHere(cfg, hash, at, entries, p, mode, sha);
    } else {
      EmitsBelow(cfg, hash, at, entries, p, mode, sha);
      GatherBelow(cfg, hash, at, entries, p, e);
      if Open(cfg, at, entries, p[..1]) {
        FoundIsReal(entries, p[0]);
        GatherMeaning(cfg, hash, at + p[..1], Find(entries, p[0]).value.entries, p[1..], mode, sha);
        assert at + p[..1] + p[1..] == at + p;
      }
    }
  }

  lemma GatherBelow(cfg: Config, hash: Bytes -> Oid, at: Path, entries: Listing, p: Path, e: M.Entry)
    requires |p| > 1 && Find(entries, p[0]).Some? && e.path == at + p
    ensures e in GatherOne(cfg, hash, at, p[0], Find(entries, p[0]).value)
       <==> Open(cfg, at, entries, p[..1]) && e in Gather(cfg, hash, at + p[..1], Find(entries, p[0]).value.entries)
  {
    OpenHead(cfg, at, entries, p);
    assert at + p[..1] == at + [p[0]];
  }

  lemma OpenHead(cfg: Config, at: Path, entries: Listing, p: Path)
    requires p != [] && Find(entries, p[0]).Some?
    ensures
      var node := Find(entries, p[0]).value;
      Open(cfg, at, entries, p[..1]) ==
      (node.Dir? && StepOf(cfg, at, p[0], node) == Descend && !Excluded(cfg, Rel(at + [p[0]])))
  {
    assert p[..1] == [p[0]] && at + Parent(p[..1]) == at;
    assert Lookup(entries, p[..1]) == Find(entries, p[0]);
  }

  lemma {:induction false} FaultPaths(cfg: Config, at: Path, entries: Listing, q: Path)
    requires q in Faults(cfg, at, entries)
    ensures |at| < |q| && q[..|at|] == at && Find(entries, q[|at|]).Some?
    decreases entries
  {
    var name, node := entries.name, entries.node;
    if q in FaultsOne(cfg, at, name, node) {
      if StepOf(cfg, at, name, node).Descend? {
        FaultPaths(cfg, at + [name], node.entries, q);
        assert q[..|at|] == q[..|at| + 1][..|at|] == at;
        assert q[|at|] == q[..|at| + 1][|at|] == (at + [name])[|at|];
      }
    } else {
      FaultPaths(cfg, at, entries.rest, q);
    }
  }

  lemma {:induction false} FaultFinds(cfg: Config, at: Path, entries: Listing, q: Path)
    requires RealListing(entries)
    requires |at| < |q| && q[..|at|] == at
    ensures q in Faults(cfg, at, entries)
       <==> Find(entries, q[|at|]).Some? && q in FaultsOne(cfg, at, q[|at|], Find(entries, q[|at|]).value)
    decreases entries
  {
    if entries.Entry? {
      FaultFinds(cfg, at, entries.rest, q);
      var name, node := entries.name, entries.node;
      if name != q[|at|] && q in FaultsOne(cfg, at, name, node) {
        if StepOf(cfg, at, name, node).Descend? {
          FaultPaths(cfg, at + [name], node.entries, q);
        }
        SecondLast(at, name, q);
      }
    }
  }

  lemma SecondLast(at: Path, name: string, q: Path)
    requires |at| < |q| && q[..|at| + 1] == at + [name]
    ensures q[|at|] == name
  {
    assert q[|at|] == q[..|at| + 1][|at|];
  }

  /** The walk refuses exactly the entries it reaches and may not accept. */
  lemma {:induction false} FaultMeaning(cfg: Config, at: Path, entries: Listing, p: Path)
    requires RealListing(entries) && p != []
    ensures at + p in Faults(cfg, at, entries) <==> StepsTo(cfg, at, entries, p, Refuse)
    decreases |p|
  {
    var q := at + p;
    assert q[..|at|] == at && q[|at|] == p[0];
    FaultFinds(cfg, at, entries, q);
    var head := p[..1];
    assert at + head == at + [p[0]];
    if Find(entries, p[0]).Some? {
      var node := Find(entries, p[0]).value;
      if |p| == 1 {
        assert p == [p[0]] && Parent(p) == [] && at + Parent(p) == at;
        if q in FaultsOne(cfg, at, p[0], node) && StepOf(cfg, at, p[0], node).Descend? {
          FaultPaths(cfg, at + [p[0]], node.entries, q);
        }
        assert Lookup(entries, p) == Some(node);
      } else {
        StepsToCons(cfg, at, entries, p, Refuse);
        OpenHead(cfg, at, entries, p);
        if Open(cfg, at, entries, head) {
          FaultMeaning(cfg, at + head, node.entries, p[1..]) by {
            FoundIsReal(entries, p[0]);
          }
          assert at + head + p[1..] == at + p;
        }
      }
    }
  }

  // ---------------------------------------------------------------- the walk

  datatype Pending = Pending(dir: Path, entries: Listing)

  function Count(entries: Listing): nat {
    match entries
    case End => 0
    case Entry(_, node, rest) => 1 + (match node case Dir(inner) => Count(inner) case _ => 0) + Count(rest)
  }

  function Weight(stack: seq<Pending>): nat {
    if stack == [] then 0 else Weight(stack[..|stack| - 1]) + 1 + Count(stack[|stack| - 1].entries)
  }

  /** What the directories still on the stack will contribute. */
  function Owed(cfg: Config, hash: Bytes -> Oid, stack: seq<Pending>): multiset<M.Entry> {
    if stack == [] then multiset{}
    else
      var top := stack[|stack| - 1];
      Owed(cfg, hash, stack[..|stack| - 1])
      + if Excluded(cfg, Rel(top.dir)) then multiset{} else Gather(cfg, hash, top.dir, top.entries)
  }

  function OwedFaults(cfg: Config, stack: seq<Pending>): set<Path> {
    if stack == [] then {}
    else
      var top := stack[|stack| - 1];
      OwedFaults(cfg, stack[..|stack| - 1])
      + if Excluded(cfg, Rel(top.dir)) then {} else Faults(cfg, top.dir, top.entries)
  }

  lemma Push(cfg: Config, hash: Bytes -> Oid, stack: seq<Pending>, top: Pending)
    ensures Weight(stack + [top]) == Weight(stack) + 1 + Count(top.entries)
    ensures Owed(cfg, hash, stack + [top]) == Owed(cfg, hash, stack)
              + if Excluded(cfg, Rel(top.dir)) then multiset{} else Gather(cfg, hash, top.dir, top.entries)
    ensures OwedFaults(cfg, stack + [top]) == OwedFaults(cfg, stack)
              + if Excluded(cfg, Rel(top.dir)) then {} else Faults(cfg, top.dir, top.entries)
  {
    assert (stack + [top])[..|stack|] == stack;
  }

  /** The object store only gains objects filed under their own hash. */
  ghost predicate StoreKept(hash: Bytes -> Oid, before: map<Oid, Bytes>, now: map<Oid, Bytes>) {
    && (forall o | o in before :: o in now && now[o] == before[o])
    && (forall o | o in now && o !in before :: hash(now[o]) == o)
  }

  method InspectExcludedDirectory(entries: Listing) returns (clean: bool)
    ensures clean == DocsClean(entries)
    decreases entries
  {
    var rest := entries;
    while rest.Entry?
      invariant DocsClean(entries) == DocsClean(rest)
      invariant rest == entries || rest < entries
      decreases rest
    {
      if rest.node.Link? { return false; }
      if rest.node.Dir? {
        var inner := InspectExcludedDirectory(rest.node.entries);
        if !inner { return false; }
      } else if !rest.node.File? {
        return false;
      }
      rest := rest.rest;
    }
    return true;
  }

  /** Handles one entry of a directory; emitted blobs are stored at once. */
  method VisitEntry(writer: LooseObjectWriter, cfg: Config, dir: Path, name: string, node: Node)
    returns (step: Step, sha: Oid)
    requires writer.Valid()
    modifies writer
    ensures writer.Valid() && StoreKept(writer.hash, old(writer.objects), writer.objects)
    ensures step == StepOf(cfg, dir, name, node)
    ensures step.Emit? ==> sha == writer.hash(Frame("blob", step.blob)) && sha in writer.objects
  {
    sha := seq(20, i => 0);
    if name == "." || name == ".." { return Skip, sha; }
    var rel := Rel(dir + [name]);
    if dir == [] && name == ".git" { return Skip, sha; }
    if name == ".git" { return Refuse, sha; }
    if rel in cfg.cache {
      return if node.Link? || !node.File? then Refuse else Skip, sha;
    }
    if rel in cfg.docs {
      if node.Link? || !node.Dir? { return Refuse, sha; }
      var clean := InspectExcludedDirectory(node.entries);
      return if clean then Skip else Refuse, sha;
    }
    if node.Link? {
      if rel in cfg.mounts {
        var marker := Utf8(MOUNT_MARKER + rel);
        sha := writer.Write("blob", marker);
        return Emit(Symlink, marker), sha;
      }
      if !cfg.recordSymlinks { return Refuse, sha; }
      sha := writer.Write("blob", Utf8(node.target));
      return Emit(Symlink, Utf8(node.target)), sha;
    }
    if node.Dir? {
      if cfg.cacheDirectory(Rel(dir), name) { return Skip, sha; }
      return Descend, sha;
    }
    if !node.File? { return Refuse, sha; }
    sha := writer.Write("blob", node.bytes);
    return Emit(if node.executable then Executable else Regular, node.bytes), sha;
  }

  function UnitsKey(e: M.Entry): Bytes { Units(Rel(e.path)) }

  /** Progress of the walk: what is collected, what is owed, what may still be refused. */
  ghost predicate Accounts(cfg: Config, hash: Bytes -> Oid, root: Listing, collected: seq<M.Entry>,
                           stack: seq<Pending>, dir: Path, rest: Listing) {
    && multiset(collected) + Owed(cfg, hash, stack) + Gather(cfg, hash, dir, rest)
         == Owed(cfg, hash, [Pending([], root)])
    && OwedFaults(cfg, stack) + Faults(cfg, dir, rest) == OwedFaults(cfg, [Pending([], root)])
  }

  ghost predicate Kept(writer: LooseObjectWriter, before: map<Oid, Bytes>, collected: seq<M.Entry>)
    reads writer
  {
    && writer.Valid()
    && StoreKept(writer.hash, before, writer.objects)
    && forall e | e in collected :: e.sha in writer.objects
  }

  /** Taking one entry off the listing. */
  lemma TakeOne(cfg: Config, hash: Bytes -> Oid, dir: Path, rest: Listing)
    requires rest.Entry?
    ensures Gather(cfg, hash, dir, rest)
         == GatherOne(cfg, hash, dir, rest.name, rest.node) + Gather(cfg, hash, dir, rest.rest)
    ensures Faults(cfg, dir, rest) == FaultsOne(cfg, dir, rest.name, rest.node) + Faults(cfg, dir, rest.rest)
  {
  }

  /** The books stay balanced when what the entry owes moves to the collected list or to the stack. */
  lemma Rebalance(cfg: Config, hash: Bytes -> Oid, root: Listing, collected: seq<M.Entry>, stack: seq<Pending>,
                  dir: Path, rest: Listing, collected': seq<M.Entry>, stack': seq<Pending>)
    requires rest.Entry? && Accounts(cfg, hash, root, collected, stack, dir, rest)
    requires multiset(collected') + Owed(cfg, hash, stack')
          == multiset(collected) + Owed(cfg, hash, stack) + GatherOne(cfg, hash, dir, rest.name, rest.node)
    requires OwedFaults(cfg, stack') == OwedFaults(cfg, stack) + FaultsOne(cfg, dir, rest.name, rest.node)
    ensures Accounts(cfg, hash, root, collected', stack', dir, rest.rest)
  {
    TakeOne(cfg, hash, dir, rest);
    var one, more := GatherOne(cfg, hash, dir, rest.name, rest.node), Gather(cfg, hash, dir, rest.rest);
    var held := multiset(collected) + Owed(cfg, hash, stack);
    assert held + (one + more) == (held + one) + more;
    var f, fs := FaultsOne(cfg, dir, rest.name, rest.node), Faults(cfg, dir, rest.rest);
    assert OwedFaults(cfg, stack) + (f + fs) == (OwedFaults(cfg, stack) + f) + fs;
  }

  lemma AccountsSkip(cfg: Config, hash: Bytes -> Oid, root: Listing, collected: seq<M.Entry>,
                     stack: seq<Pending>, dir: Path, rest: Listing)
    requires rest.Entry? && Accounts(cfg, hash, root, collected, stack, dir, rest)
    requires StepOf(cfg, dir, rest.name, rest.node) == Skip
    ensures Accounts(cfg, hash, root, collected, stack, dir, rest.rest)
  {
    assert OwedFaults(cfg, stack) + {} == OwedFaults(cfg, stack);
    Rebalance(cfg, hash, root, collected, stack, dir, rest, collected, stack);
  }

  lemma AccountsEmit(cfg: Config, hash: Bytes -> Oid, root: Listing, collected: seq<M.Entry>,
                     stack: seq<Pending>, dir: Path, rest: Listing, e: M.Entry)
    requires rest.Entry? && Accounts(cfg, hash, root, collected, stack, dir, rest)
    requires StepOf(cfg, dir, rest.name, rest.node).Emit?
    requires
      var step := StepOf(cfg, dir, rest.name, rest.node);
      e == EntryAt(hash, dir, rest.name, step.mode, step.blob)
    ensures Accounts(cfg, hash, root, collected + [e], stack, dir, rest.rest)
  {
    assert multiset(collected + [e]) == multiset(collected) + multiset{e};
    assert OwedFaults(cfg, stack) + {} == OwedFaults(cfg, stack);
    Rebalance(cfg, hash, root, collected, stack, dir, rest, collected + [e], stack);
  }

  lemma AccountsDescend(cfg: Config, hash: Bytes -> Oid, root: Listing, collected: seq<M.Entry>,
                        stack: seq<Pending>, dir: Path, rest: Listing, sub: Pending)
    requires rest.Entry? && Accounts(cfg, hash, root, collected, stack, dir, rest)
    requires StepOf(cfg, dir, rest.name, rest.node) == Descend && rest.node.Dir?
    requires sub == Pending(dir + [rest.name], rest.node.entries)
    ensures Accounts(cfg, hash, root, collected, stack + [sub], dir, rest.rest)
    ensures Weight(stack + [sub]) + Count(rest.rest) == Weight(stack) + Count(rest)
  {
    Push(cfg, hash, stack, sub);
    Rebalance(cfg, hash, root, collected, stack, dir, rest, collected, stack + [sub]);
  }

  lemma DescendIsDir(cfg: Config, dir: Path, name: string, node: Node)
    requires StepOf(cfg, dir, name, node) == Descend
    ensures node.Dir?
  {
  }

  /** Reads one directory: emits its files and pushes its subdirectories. */
  method ReadDirectory(writer: LooseObjectWriter, cfg: Config, ghost root: Listing, dir: Path, listing: Listing,
                       collected0: seq<M.Entry>, stack0: seq<Pending>, ghost before: map<Oid, Bytes>)
    returns (refused: Option<Path>, collected: seq<M.Entry>, stack: seq<Pending>)
    requires Kept(writer, before, collected0)
    requires Accounts(cfg, writer.hash, root, collected0, stack0, dir, listing)
    modifies writer
    ensures Kept(writer, before, collected)
    ensures refused.None? ==> Accounts(cfg, writer.hash, root, collected, stack, dir, End)
    ensures refused.None? ==> Weight(stack) <= Weight(stack0) + Count(listing)
    ensures refused.Some? ==> refused.value in OwedFaults(cfg, [Pending([], root)])
  {
    collected, stack := collected0, stack0;
    var rest := listing;
    while rest.Entry?
      invariant Kept(writer, before, collected)
      invariant Accounts(cfg, writer.hash, root, collected, stack, dir, rest)
      invariant Weight(stack) + Count(rest) <= Weight(stack0) + Count(listing)
      decreases rest
    {
      var step, sha := VisitEntry(writer, cfg, dir, rest.name, rest.node);
      match step {
        case Skip =>
          AccountsSkip(cfg, writer.hash, root, collected, stack, dir, rest);
        case Refuse =>
          assert dir + [rest.name] in Faults(cfg, dir, rest);
          return Some(dir + [rest.name]), collected, stack;
        case Descend =>
          DescendIsDir(cfg, dir, rest.name, rest.node);
          var sub := Pending(dir + [rest.name], rest.node.entries);
          AccountsDescend(cfg, writer.hash, root, collected, stack, dir, rest, sub);
          stack := stack + [sub];
        case Emit(mode, blob) =>
          var e := M.Entry(mode, sha, dir + [rest.name]);
          AccountsEmit(cfg, writer.hash, root, collected, stack, dir, rest, e);
          collected := collected + [e];
      }
      rest := rest.rest;
    }
    refused := None;
  }

  lemma PopTop(cfg: Config, hash: Bytes -> Oid, stack: seq<Pending>)
    requires stack != []
    ensures
      var top, below := stack[|stack| - 1], stack[..|stack| - 1];
      && Weight(stack) == Weight(below) + 1 + Count(top.entries)
      && Owed(cfg, hash, stack) == Owed(cfg, hash, below)
           + (if Excluded(cfg, Rel(top.dir)) then multiset{} else Gather(cfg, hash, top.dir, top.entries))
      && OwedFaults(cfg, stack) == OwedFaults(cfg, below)
           + (if Excluded(cfg, Rel(top.dir)) then {} else Faults(cfg, top.dir, top.entries))
  {
  }

  ghost predicate Balanced(cfg: Config, hash: Bytes -> Oid, root: Listing, collected: seq<M.Entry>,
                           stack: seq<Pending>) {
    Accounts(cfg, hash, root, collected, stack, [], End)
  }

  lemma PopExcluded(cfg: Config, hash: Bytes -> Oid, root: Listing, collected: seq<M.Entry>, stack: seq<Pending>)
    requires stack != [] && Balanced(cfg, hash, root, collected, stack)
    requires Excluded(cfg, Rel(stack[|stack| - 1].dir))
    ensures Balanced(cfg, hash, root, collected, stack[..|stack| - 1])
  {
    PopTop(cfg, hash, stack);
  }

  lemma PopListing(cfg: Config, hash: Bytes -> Oid, root: Listing, collected: seq<M.Entry>, stack: seq<Pending>)
    requires stack != [] && Balanced(cfg, hash, root, collected, stack)
    requires !Excluded(cfg, Rel(stack[|stack| - 1].dir))
    ensures Accounts(cfg, hash, root, collected, stack[..|stack| - 1],
                     stack[|stack| - 1].dir, stack[|stack| - 1].entries)
  {
    PopTop(cfg, hash, stack);
  }

  /** What the whole walk owes at the start, in declarative terms. */
  lemma RootOwes(cfg: Config, hash: Bytes -> Oid, root: Listing)
    requires RealListing(root)
    ensures forall e :: e in Owed(cfg, hash, [Pending([], root)]) <==> Included(cfg, hash, root, e)
    ensures forall e :: Owed(cfg, hash, [Pending([], root)])[e] <= 1
    ensures forall p :: p in OwedFaults(cfg, [Pending([], root)]) <==> Refused(cfg, root, p)
  {
    PopTop(cfg, hash, [Pending([], root)]);
    forall e
      ensures e in Owed(cfg, hash, [Pending([], root)]) <==> Included(cfg, hash, root, e)
      ensures Owed(cfg, hash, [Pending([], root)])[e] <= 1
    {
      GatherOnce(cfg, hash, [], root, e);
      if e.path != [] {
        assert [] + e.path == e.path;
        GatherMeaning(cfg, hash, [], root, e.path, e.mode, e.sha);
      } else if e in Gather(cfg, hash, [], root) {
        GatherPaths(cfg, hash, [], root, e);
      }
    }
    forall p
      ensures p in OwedFaults(cfg, [Pending([], root)]) <==> Refused(cfg, root, p)
    {
      if p != [] {
        assert [] + p == p;
        FaultMeaning(cfg, [], root, p);
      } else if p in Faults(cfg, [], root) {
        FaultPaths(cfg, [], root, p);
      }
    }
  }

  /** Real paths only, each entry once: what the tree builder relies on. */
  lemma {:induction false} LookupIsReal(entries: Listing, p: Path)
    requires RealListing(entries) && p != [] && Lookup(entries, p).Some?
    ensures ValidPath(p)
    decreases |p|
  {
    FoundIsReal(entries, p[0]);
    assert p == [p[0]] + p[1..];
    if |p| > 1 {
      LookupIsReal(Find(entries, p[0]).value.entries, p[1..]);
    }
  }

  lemma IncludedIsUnique(cfg: Config, hash: Bytes -> Oid, root: Listing, e: M.Entry, f: M.Entry)
    requires Included(cfg, hash, root, e) && Included(cfg, hash, root, f)
    ensures e.path == f.path ==> e == f
    ensures !e.mode.Directory?
  {
  }

  lemma CollectedIsValid(cfg: Config, hash: Bytes -> Oid, root: Listing, collected: seq<M.Entry>)
    requires RealListing(root)
    requires multiset(collected) == Owed(cfg, hash, [Pending([], root)])
    ensures ValidEntries(collected)
    ensures forall e :: e in collected <==> Included(cfg, hash, root, e)
    ensures DistinctKeys(UnitsKey, collected)
  {
    RootOwes(cfg, hash, root);
    forall e
      ensures e in collected <==> Included(cfg, hash, root, e)
    {
      assert e in collected <==> e in multiset(collected);
    }
    forall e | e in collected
      ensures ValidPath(e.path) && !e.mode.Directory?
    {
      LookupIsReal(root, e.path);
      IncludedIsUnique(cfg, hash, root, e, e);
    }
    forall i, j | 0 <= i < j < |collected|
      ensures collected[i].path != collected[j].path
      ensures UnitsKey(collected[i]) != UnitsKey(collected[j])
    {
      var e, f := collected[i], collected[j];
      assert e in collected && f in collected;
      IncludedIsUnique(cfg, hash, root, e, f);
      assert multiset(collected)[e] <= 1;
      assert e == f ==> multiset(collected)[e] >= 2 by {
        if e == f { RepeatedCount(collected, i, j); }
      }
      if UnitsKey(e) == UnitsKey(f) {
        UnitsInjective(Rel(e.path), Rel(f.path));
        PathBytesInjective(e.path, f.path);
      }
    }
  }

  /** Empties the stack, or stops at the first entry that must be refused. */
  method DrainStack(writer: LooseObjectWriter, cfg: Config, root: Listing)
    returns (refused: Option<Path>, collected: seq<M.Entry>)
    requires writer.Valid() && RealListing(root)
    modifies writer
    ensures Kept(writer, old(writer.objects), collected)
    ensures refused.None? ==> Balanced(cfg, writer.hash, root, collected, [])
    ensures refused.Some? ==> Refused(cfg, root, refused.value)
  {
    collected := [];
    var stack := [Pending([], root)];
    ghost var hash, before := writer.hash, writer.objects;
    RootOwes(cfg, hash, root);
    while stack != []
      invariant Kept(writer, before, collected) && writer.hash == hash
      invariant Balanced(cfg, hash, root, collected, stack)
      decreases Weight(stack)
    {
      var current := stack[|stack| - 1];
      PopTop(cfg, hash, stack);
      if Excluded(cfg, Rel(current.dir)) {
        PopExcluded(cfg, hash, root, collected, stack);
        stack := stack[..|stack| - 1];
      } else {
        PopListing(cfg, hash, root, collected, stack);
        refused, collected, stack := ReadDirectory(writer, cfg, root, current.dir, current.entries,
                                                   collected, stack[..|stack| - 1], before);
        if refused.Some? { return; }
      }
    }
    return None, collected;
  }

  lemma DrainedIsDone(cfg: Config, hash: Bytes -> Oid, root: Listing, collected: seq<M.Entry>)
    requires RealListing(root) && Balanced(cfg, hash, root, collected, [])
    ensures ValidEntries(collected) && DistinctKeys(UnitsKey, collected)
    ensures forall e :: e in collected <==> Included(cfg, hash, root, e)
    ensures forall p :: !Refused(cfg, root, p)
  {
    RootOwes(cfg, hash, root);
    CollectedIsValid(cfg, hash, root, collected);
  }

  /**
   * Walks the workspace with an explicit stack. On success the result lists, sorted by path and
   * without duplicates, exactly the included entries; it fails exactly when something must be refused.
   */
  method CollectEntries(writer: LooseObjectWriter, cfg: Config, root: Listing)
    returns (r: Result<seq<M.Entry>, Path>)
    requires writer.Valid() && RealListing(root)
    modifies writer
    ensures writer.Valid() && StoreKept(writer.hash, old(writer.objects), writer.objects)
    ensures r.Ok? ==>
      && (forall e :: e in r.value <==> Included(cfg, writer.hash, root, e))
      && StrictlySorted(UnitsKey, r.value) && ValidEntries(r.value)
      && (forall e | e in r.value :: e.sha in writer.objects)
      && (forall p :: !Refused(cfg, root, p))
    ensures r.Err? ==> Refused(cfg, root, r.error)
  {
    var refused, collected := DrainStack(writer, cfg, root);
    if refused.Some? { return Err(refused.value); }
    DrainedIsDone(cfg, writer.hash, root, collected);
    SortIsStrict(UnitsKey, collected);
    SortedIsValid(collected);
    return Ok(SortOn(UnitsKey, collected));
  }

  lemma SortedIsValid(collected: seq<M.Entry>)
    requires ValidEntries(collected) && DistinctKeys(UnitsKey, collected)
    ensures ValidEntries(SortOn(UnitsKey, collected))
    ensures forall e :: e in SortOn(UnitsKey, collected) <==> e in collected
  {
    var r := SortOn(UnitsKey, collected);
    SortIsStrict(UnitsKey, collected);
    forall e
      ensures e in r <==> e in collected
    {
      SortMember(UnitsKey, collected, e);
    }
    forall i, j | 0 <= i < j < |r|
      ensures r[i].path != r[j].path
    {
      LexTrichotomy(UnitsKey(r[i]), UnitsKey(r[j]));
    }
  }
}
