/** What the walk puts into a candidate tree and what it refuses, path by path, over the files themselves. */
module WalkMeaning {
  import opened Text
  import opened GitObjects
  import opened MerkleTree
  import opened W = WorkspaceWalk
  import M = MerkleTree

  // ---------------------------------------------------------------- which directories are read

  /** Nothing below this directory is read. */
  ghost predicate Hides(cfg: Config, rel: string) {
    || (cfg.excludePrefix.Some? && AtOrBelow(rel, cfg.excludePrefix.value))
    || AtOrBelow(rel, ".gateforge/test-gates/cache")
    || (AtOrBelow(rel, ".gateforge/ci-witnessed") && cfg.ignoredByGit(rel))
    || (exists i :: 0 <= i < |cfg.docs| && AtOrBelow(rel, cfg.docs[i]))
    || (exists i :: 0 <= i < |cfg.cache| && rel == cfg.cache[i])
  }

  /** No name and no approved exclusion singles this path out. */
  ghost predicate Plain(cfg: Config, p: Path)
    requires p != []
  {
    var name := p[|p| - 1];
    name != "." && name != ".." && name != ".git" && Rel(p) !in cfg.cache && Rel(p) !in cfg.docs
  }

  ghost predicate Enters(cfg: Config, root: W.Listing, p: Path)
    requires p != []
  {
    && Lookup(root, p).Some? && Lookup(root, p).value.Dir?
    && Plain(cfg, p)
    && !cfg.cacheDirectory(Rel(p[..|p| - 1]), p[|p| - 1])
    && !Hides(cfg, Rel(p))
  }

  /** The workspace and every directory above the path are read. */
  ghost predicate Visited(cfg: Config, root: W.Listing, p: Path) {
    p != [] && !Hides(cfg, "") && forall k | 1 <= k < |p| :: Enters(cfg, root, p[..k])
  }

  lemma ExcludedIs(cfg: Config, rel: string)
    ensures Excluded(cfg, rel) <==> Hides(cfg, rel)
  {
    forall folder
      ensures Under(rel, folder) <==> AtOrBelow(rel, folder)
    {
      UnderIs(rel, folder);
    }
    if f :| f in cfg.docs && Under(rel, f) {
      var i :| 0 <= i < |cfg.docs| && cfg.docs[i] == f;
      assert AtOrBelow(rel, cfg.docs[i]);
    }
    if i :| 0 <= i < |cfg.docs| && AtOrBelow(rel, cfg.docs[i]) {
      assert cfg.docs[i] in cfg.docs;
    }
  }

  lemma StepOfDir(cfg: Config, dir: Path, name: string, inner: W.Listing)
    ensures StepOf(cfg, dir, name, Dir(inner)) == Descend <==>
              Plain(cfg, dir + [name]) && !cfg.cacheDirectory(Rel(dir), name)
  {
  }

  lemma OpenIs(cfg: Config, root: W.Listing, p: Path)
    requires p != []
    ensures Open(cfg, [], root, p) <==> Enters(cfg, root, p)
  {
    var dir, name := Parent(p), p[|p| - 1];
    ExcludedIs(cfg, Rel(p));
    assert [] + p == p && [] + dir == dir && dir + [name] == p;
    if Lookup(root, p).Some? && Lookup(root, p).value.Dir? {
      StepOfDir(cfg, dir, name, Lookup(root, p).value.entries);
    }
  }

  lemma VisitedIs(cfg: Config, root: W.Listing, p: Path)
    requires p != []
    ensures Visited(cfg, root, p) <==> !Excluded(cfg, "") && Reached(cfg, [], root, p)
  {
    ExcludedIs(cfg, "");
    forall k | 1 <= k < |p|
      ensures Open(cfg, [], root, p[..k]) <==> Enters(cfg, root, p[..k])
    {
      OpenIs(cfg, root, p[..k]);
    }
  }

  // ---------------------------------------------------------------- what is included

  /** What a link is stored as: the marker of its dependency mount, or its target. */
  ghost function LinkText(cfg: Config, rel: string, target: string): string {
    if rel in cfg.mounts then "gateforge-runtime-reuse-mount:v1:" + rel else target
  }

  /** The entry a file or a link gives: its executable bit and its own bytes, or the text of the link. */
  ghost predicate Gives(cfg: Config, hash: Bytes -> Oid, node: Node, e: M.Entry) {
    match node
    case File(executable, bytes) =>
      e.mode == (if executable then Executable else Regular) && e.sha == hash(Frame("blob", bytes))
    case Link(target) =>
      && e.mode == Symlink
      && (Rel(e.path) in cfg.mounts || cfg.recordSymlinks)
      && e.sha == hash(Frame("blob", Utf8(LinkText(cfg, Rel(e.path), target))))
    case _ => false
  }

  lemma StepOfFile(cfg: Config, dir: Path, name: string, executable: bool, bytes: Bytes)
    ensures var p := dir + [name];
      StepOf(cfg, dir, name, File(executable, bytes)).Emit? <==> Plain(cfg, p)
    ensures StepOf(cfg, dir, name, File(executable, bytes)).Emit? ==>
              StepOf(cfg, dir, name, File(executable, bytes)) == Emit(if executable then Executable else Regular, bytes)
  {
  }

  lemma StepOfLink(cfg: Config, dir: Path, name: string, target: string)
    ensures var p := dir + [name];
      StepOf(cfg, dir, name, Link(target)).Emit? <==> Plain(cfg, p) && (Rel(p) in cfg.mounts || cfg.recordSymlinks)
    ensures StepOf(cfg, dir, name, Link(target)).Emit? ==>
              StepOf(cfg, dir, name, Link(target)) == Emit(Symlink, Utf8(LinkText(cfg, Rel(dir + [name]), target)))
  {
  }

  lemma StepOfOther(cfg: Config, dir: Path, name: string, node: Node)
    requires node.Dir? || node.Special?
    ensures !StepOf(cfg, dir, name, node).Emit?
  {
  }

  /** Exactly which entries are included, by what stands at their path. */
  lemma WhatIsIncluded(cfg: Config, hash: Bytes -> Oid, root: W.Listing, e: M.Entry)
    ensures Included(cfg, hash, root, e) <==>
            && Visited(cfg, root, e.path)
            && Lookup(root, e.path).Some?
            && Plain(cfg, e.path)
            && Gives(cfg, hash, Lookup(root, e.path).value, e)
  {
    var p := e.path;
    if p != [] {
      VisitedIs(cfg, root, p);
      if Lookup(root, p).Some? {
        var node, dir, name := Lookup(root, p).value, Parent(p), p[|p| - 1];
        assert [] + dir == dir && dir + [name] == p;
        match node {
          case File(executable, bytes) => StepOfFile(cfg, dir, name, executable, bytes);
          case Link(target) => StepOfLink(cfg, dir, name, target);
          case _ => StepOfOther(cfg, dir, name, node);
        }
        EmitsByStep(cfg, hash, root, p, e.mode, e.sha, StepOf(cfg, dir, name, node));
      }
    }
  }

  lemma EmitsByStep(cfg: Config, hash: Bytes -> Oid, root: W.Listing, p: Path, mode: Mode, sha: Oid, step: Step)
    requires p != [] && Lookup(root, p).Some?
    requires step == StepOf(cfg, [] + Parent(p), p[|p| - 1], Lookup(root, p).value)
    ensures Emits(cfg, hash, [], root, p, mode, sha) <==>
              && Reached(cfg, [], root, p)
              && step.Emit? && mode == step.mode && sha == hash(Frame("blob", step.blob))
  {
    if step.Emit? && Reached(cfg, [], root, p) {
      assert StepsTo(cfg, [], root, p, Emit(step.mode, step.blob));
    }
  }

  /** A regular file that is read is included with its executable bit and the hash of its bytes, and in no other way. */
  lemma FileIsIncluded(cfg: Config, hash: Bytes -> Oid, root: W.Listing, p: Path, executable: bool, bytes: Bytes)
    requires Visited(cfg, root, p) && Plain(cfg, p) && Lookup(root, p) == Some(File(executable, bytes))
    ensures forall e: M.Entry | e.path == p :: Included(cfg, hash, root, e) <==>
              e == M.Entry(if executable then Executable else Regular, hash(Frame("blob", bytes)), p)
  {
    forall e: M.Entry | e.path == p
      ensures Included(cfg, hash, root, e) <==>
                e == M.Entry(if executable then Executable else Regular, hash(Frame("blob", bytes)), p)
    {
      WhatIsIncluded(cfg, hash, root, e);
    }
  }

  // ---------------------------------------------------------------- what is refused

  /** The folder holds files and directories only, at every depth. */
  ghost predicate FilesOnly(entries: W.Listing) {
    forall q: Path | q != [] && Lookup(entries, q).Some? ::
      Lookup(entries, q).value.File? || Lookup(entries, q).value.Dir?
  }

  lemma {:induction false} CleanIsFilesOnly(entries: W.Listing)
    requires RealListing(entries)
    ensures DocsClean(entries) <==> FilesOnly(entries)
    decreases entries
  {
    if DocsClean(entries) {
      forall q: Path | q != [] && Lookup(entries, q).Some?
        ensures Lookup(entries, q).value.File? || Lookup(entries, q).value.Dir?
      {
        CleanEverywhere(entries, q);
      }
    } else {
      var q := UncleanSomewhere(entries);
      assert Lookup(entries, q).Some?;
    }
  }

  lemma {:induction false} CleanEverywhere(entries: W.Listing, q: Path)
    requires DocsClean(entries) && q != [] && Lookup(entries, q).Some?
    ensures Lookup(entries, q).value.File? || Lookup(entries, q).value.Dir?
    decreases |q|
  {
    CleanFound(entries, q[0]);
    if |q| > 1 {
      CleanEverywhere(Find(entries, q[0]).value.entries, q[1..]);
    }
  }

  lemma {:induction false} CleanFound(entries: W.Listing, name: string)
    requires DocsClean(entries) && Find(entries, name).Some?
    ensures var node := Find(entries, name).value; node.File? || (node.Dir? && DocsClean(node.entries))
    decreases entries
  {
    if entries.name != name {
      CleanFound(entries.rest, name);
    }
  }

  lemma {:induction false} UncleanSomewhere(entries: W.Listing) returns (q: Path)
    requires RealListing(entries) && !DocsClean(entries)
    ensures q != [] && Lookup(entries, q).Some? && !Lookup(entries, q).value.File? && !Lookup(entries, q).value.Dir?
    decreases entries
  {
    var name, node := entries.name, entries.node;
    if !DocsClean(entries.rest) {
      q := UncleanSomewhere(entries.rest);
      SkipsFirst(entries, q);
    } else if node.Dir? {
      var inner := UncleanSomewhere(node.entries);
      q := [name] + inner;
      assert q[1..] == inner;
    } else {
      q := [name];
    }
  }

  lemma SkipsFirst(entries: W.Listing, q: Path)
    requires entries.Entry? && RealListing(entries) && q != [] && Lookup(entries.rest, q).Some?
    ensures Lookup(entries, q) == Lookup(entries.rest, q)
  {
  }

  /** Exactly what the walk refuses where it looks. */
  lemma WhatIsRefused(cfg: Config, root: W.Listing, p: Path)
    requires RealListing(root)
    ensures Refused(cfg, root, p) <==>
            && Visited(cfg, root, p)
            && Lookup(root, p).Some?
            && p[|p| - 1] != "." && p[|p| - 1] != ".."
            && var node := Lookup(root, p).value;
            if p[|p| - 1] == ".git" then |p| > 1
            else if Rel(p) in cfg.cache then !node.File?
            else if Rel(p) in cfg.docs then !(node.Dir? && FilesOnly(node.entries))
            else node.Special? || (node.Link? && Rel(p) !in cfg.mounts && !cfg.recordSymlinks)
  {
    if p != [] {
      VisitedIs(cfg, root, p);
      assert [] + Parent(p) == Parent(p) && Parent(p) + [p[|p| - 1]] == p;
      if Lookup(root, p).Some? && Lookup(root, p).value.Dir? {
        FoundListingIsReal(root, p);
        CleanIsFilesOnly(Lookup(root, p).value.entries);
      }
    }
  }

  lemma {:induction false} FoundListingIsReal(root: W.Listing, p: Path)
    requires RealListing(root) && Lookup(root, p).Some? && Lookup(root, p).value.Dir?
    ensures RealListing(Lookup(root, p).value.entries)
    decreases |p|
  {
    if p != [] {
      FoundIsReal(root, p[0]);
      if |p| > 1 {
        FoundListingIsReal(Find(root, p[0]).value.entries, p[1..]);
      }
    }
  }

  // ---------------------------------------------------------------- what is stored

  /** The object filed under an included file's id is that file, when the hash tells the stored objects from it. */
  lemma FileIsStored(hash: Bytes -> Oid, before: map<Oid, Bytes>, now: map<Oid, Bytes>, bytes: Bytes)
    requires forall o | o in before :: hash(before[o]) == o
    requires StoreKept(hash, before, now) && hash(Frame("blob", bytes)) in now
    requires CollisionFree(hash, now.Values + {Frame("blob", bytes)})
    ensures now[hash(Frame("blob", bytes))] == Frame("blob", bytes)
  {
    var o := hash(Frame("blob", bytes));
    assert now[o] in now.Values;
    assert hash(now[o]) == o;
  }

  // ---------------------------------------------------------------- the run-state prefix

  /** Backslashes become slashes, and slashes at the end go. */
  ghost predicate IsFolderName(s: string, name: string) {
    && |name| <= |s|
    && (forall i | 0 <= i < |name| :: name[i] == if s[i] == '\\' then '/' else s[i])
    && (forall i | |name| <= i < |s| :: s[i] == '/' || s[i] == '\\')
    && (name != "" ==> name[|name| - 1] != '/')
  }

  lemma {:induction false} PosixAt(s: string)
    ensures |ToPosix(s)| == |s|
    ensures forall i | 0 <= i < |s| :: ToPosix(s)[i] == if s[i] == '\\' then '/' else s[i]
  {
    if s != "" {
      PosixAt(s[1..]);
      assert forall i | 1 <= i < |s| :: s[i] == s[1..][i - 1];
    }
  }

  lemma {:induction false} TrimmedAt(s: string)
    ensures var t := Trimmed(s); |t| <= |s| && t == s[..|t|] && (t != "" ==> t[|t| - 1] != '/')
    ensures forall i | |Trimmed(s)| <= i < |s| :: s[i] == '/'
  {
    if s != "" && s[|s| - 1] == '/' {
      TrimmedAt(s[..|s| - 1]);
      var t := Trimmed(s[..|s| - 1]);
      assert t == s[..|s| - 1][..|t|] == s[..|t|];
      assert forall i | 0 <= i < |s| - 1 :: s[..|s| - 1][i] == s[i];
    } else {
      assert s == s[..|s|];
    }
  }

  lemma FolderNameOf(s: string)
    ensures IsFolderName(s, Trimmed(ToPosix(s)))
  {
    PosixAt(s);
    TrimmedAt(ToPosix(s));
  }

  /** Only a directory inside the workspace is excluded, by the rest of its name; the workspace itself is refused. */
  lemma WhatIsExcluded(dir: string, workspace: string, d: string, w: string)
    requires IsFolderName(dir, d) && IsFolderName(workspace, w)
    ensures ExcludePrefix(Some(dir), workspace) ==
      if d == w then Err(())
      else if AtOrBelow(d, w) then Ok(Some(d[|w| + 1..]))
      else Ok(None)
    ensures ExcludePrefix(None, workspace) == Ok(None)
  {
    FolderNameOf(dir);
    FolderNameOf(workspace);
    OneFolderName(dir, d, Trimmed(ToPosix(dir)));
    OneFolderName(workspace, w, Trimmed(ToPosix(workspace)));
    UnderIs(d, w);
  }

  lemma OneFolderName(s: string, a: string, b: string)
    requires IsFolderName(s, a) && IsFolderName(s, b)
    ensures a == b
  {
  }
}
