/** The deepest-first pass that turns flat entries into tree objects. */
module TreeBuilder {
  import opened Text
  import opened Sorting
  import opened GitObjects
  import opened MerkleTree

  datatype BuildError = MissingSubtree(dir: Path) | NotATree

  function Get<K(==), V>(m: map<K, seq<V>>, k: K): seq<V> { if k in m then m[k] else [] }

  function FilesOf(es: seq<Entry>, d: Path): seq<Entry> {
    if es == [] then []
    else
      var rest, e := FilesOf(es[..|es| - 1], d), es[|es| - 1];
      if InDir(e, d) then rest + [e] else rest
  }

  lemma {:induction false} FilesOfAre(es: seq<Entry>, d: Path)
    ensures |Files(es, d)| == |FilesOf(es, d)|
    ensures forall i | 0 <= i < |FilesOf(es, d)| ::
              InDir(FilesOf(es, d)[i], d) && Files(es, d)[i] == FileChild(FilesOf(es, d)[i])
  {
    if es != [] {
      FilesOfAre(es[..|es| - 1], d);
    }
  }

  /** Directories mentioned so far: the root and every ancestor of an entry. */
  ghost predicate DirsSeen(es: seq<Entry>, dirs: seq<Path>) {
    forall d :: d in dirs <==> IsDir(es, d)
  }

  ghost predicate FilesHeld(es: seq<Entry>, files: map<Path, seq<Entry>>) {
    forall d :: Get(files, d) == FilesOf(es, d)
  }

  ghost predicate SubdirsHeld(es: seq<Entry>, subdirs: map<Path, seq<string>>) {
    forall d :: Get(subdirs, d) == Subdirs(es, d)
  }

  ghost predicate Grouped(es: seq<Entry>, files: map<Path, seq<Entry>>, subdirs: map<Path, seq<string>>,
                          dirs: seq<Path>) {
    FilesHeld(es, files) && SubdirsHeld(es, subdirs) && DirsSeen(es, dirs)
  }

  predicate Ancestor(d: Path, p: Path) { |d| < |p| && p[..|d|] == d }

  /** Half-way up one entry's ancestors: the levels from `cursor` down are recorded already. */
  ghost predicate SubdirsFromAt(es: seq<Entry>, e: Entry, level: nat, subdirs: map<Path, seq<string>>, d: Path) {
    Get(subdirs, d) == if |d| < level then Subdirs(es, d) else Subdirs(es + [e], d)
  }

  ghost predicate SubdirsFrom(es: seq<Entry>, e: Entry, level: nat, subdirs: map<Path, seq<string>>) {
    forall d :: SubdirsFromAt(es, e, level, subdirs, d)
  }

  ghost predicate DirsFromAt(es: seq<Entry>, e: Entry, level: nat, dirs: seq<Path>, d: Path) {
    d in dirs <==> IsDir(es, d) || (level <= |d| && Ancestor(d, e.path))
  }

  ghost predicate DirsFrom(es: seq<Entry>, e: Entry, level: nat, dirs: seq<Path>) {
    forall d :: DirsFromAt(es, e, level, dirs, d)
  }

  ghost predicate Climbing(es: seq<Entry>, e: Entry, cursor: Path, subdirs: map<Path, seq<string>>,
                           dirs: seq<Path>) {
    Ancestor(cursor, e.path) && SubdirsFrom(es, e, |cursor|, subdirs) && DirsFrom(es, e, |cursor|, dirs)
  }

  lemma SubdirsSnoc(es: seq<Entry>, e: Entry, d: Path)
    ensures Subdirs(es + [e], d) == if Below(e, d) then AddUnique(Subdirs(es, d), e.path[|d|]) else Subdirs(es, d)
  {
    assert (es + [e])[..|es|] == es;
  }

  lemma FilesOfSnoc(es: seq<Entry>, e: Entry, d: Path)
    ensures FilesOf(es + [e], d) == if InDir(e, d) then FilesOf(es, d) + [e] else FilesOf(es, d)
  {
    assert (es + [e])[..|es|] == es;
  }

  lemma ClimbStart(es: seq<Entry>, e: Entry, cursor: Path, subdirs: map<Path, seq<string>>, dirs: seq<Path>)
    requires e.path != [] && cursor == e.path[..|e.path| - 1]
    requires SubdirsHeld(es, subdirs) && DirsSeen(es, dirs)
    ensures Climbing(es, e, cursor, subdirs, AddUnique(dirs, cursor))
  {
    forall d
      ensures SubdirsFromAt(es, e, |cursor|, subdirs, d)
    {
      SubdirsSnoc(es, e, d);
      assert Get(subdirs, d) == Subdirs(es, d);
    }
    StartDirs(es, e, cursor, dirs);
  }

  lemma StartDirs(es: seq<Entry>, e: Entry, cursor: Path, dirs: seq<Path>)
    requires e.path != [] && cursor == e.path[..|e.path| - 1]
    requires DirsSeen(es, dirs)
    ensures DirsFrom(es, e, |cursor|, AddUnique(dirs, cursor))
  {
    forall d
      ensures DirsFromAt(es, e, |cursor|, AddUnique(dirs, cursor), d)
    {
      assert |cursor| <= |d| && Ancestor(d, e.path) <==> d == cursor;
      assert d in dirs <==> IsDir(es, d);
    }
  }

  lemma AncestorUp(cursor: Path, p: Path)
    requires cursor != [] && Ancestor(cursor, p)
    ensures
      var parent := cursor[..|cursor| - 1];
      Ancestor(parent, p) && p[|parent|] == cursor[|cursor| - 1] && |parent| + 2 <= |p|
  {
    var parent := cursor[..|cursor| - 1];
    assert p[..|parent|] == p[..|cursor|][..|parent|] == parent;
    assert p[|parent|] == p[..|cursor|][|parent|];
  }

  lemma ClimbSubdirs(es: seq<Entry>, e: Entry, cursor: Path, subdirs: map<Path, seq<string>>)
    requires cursor != [] && Ancestor(cursor, e.path)
    requires SubdirsFrom(es, e, |cursor|, subdirs)
    ensures
      var parent, name := cursor[..|cursor| - 1], cursor[|cursor| - 1];
      SubdirsFrom(es, e, |parent|, subdirs[parent := AddUnique(Get(subdirs, parent), name)])
  {
    var parent, name := cursor[..|cursor| - 1], cursor[|cursor| - 1];
    var next := subdirs[parent := AddUnique(Get(subdirs, parent), name)];
    forall d
      ensures SubdirsFromAt(es, e, |parent|, next, d)
    {
      assert SubdirsFromAt(es, e, |cursor|, subdirs, d);
      ClimbSubdirsAt(es, e, cursor, subdirs, d);
    }
  }

  lemma ClimbSubdirsAt(es: seq<Entry>, e: Entry, cursor: Path, subdirs: map<Path, seq<string>>, d: Path)
    requires cursor != [] && Ancestor(cursor, e.path)
    requires Get(subdirs, d) == if |d| < |cursor| then Subdirs(es, d) else Subdirs(es + [e], d)
    ensures
      var parent, name := cursor[..|cursor| - 1], cursor[|cursor| - 1];
      Get(subdirs[parent := AddUnique(Get(subdirs, parent), name)], d)
        == if |d| < |parent| then Subdirs(es, d) else Subdirs(es + [e], d)
  {
    AncestorUp(cursor, e.path);
    if |d| == |cursor| - 1 {
      SubdirsSnoc(es, e, d);
    }
  }

  lemma ClimbDirs(es: seq<Entry>, e: Entry, cursor: Path, dirs: seq<Path>)
    requires cursor != [] && Ancestor(cursor, e.path)
    requires DirsFrom(es, e, |cursor|, dirs)
    ensures
      var parent := cursor[..|cursor| - 1];
      DirsFrom(es, e, |parent|, AddUnique(dirs, parent))
  {
    var parent := cursor[..|cursor| - 1];
    AncestorUp(cursor, e.path);
    forall d
      ensures DirsFromAt(es, e, |parent|, AddUnique(dirs, parent), d)
    {
      assert DirsFromAt(es, e, |cursor|, dirs, d);
      assert |parent| <= |d| && Ancestor(d, e.path) <==> d == parent || (|cursor| <= |d| && Ancestor(d, e.path));
    }
  }

  lemma ClimbStep(es: seq<Entry>, e: Entry, cursor: Path, subdirs: map<Path, seq<string>>, dirs: seq<Path>,
                  parent: Path, subdirs': map<Path, seq<string>>, dirs': seq<Path>)
    requires cursor != [] && Climbing(es, e, cursor, subdirs, dirs)
    requires parent == cursor[..|cursor| - 1]
    requires subdirs' == subdirs[parent := AddUnique(Get(subdirs, parent), cursor[|cursor| - 1])]
    requires dirs' == AddUnique(dirs, parent)
    ensures Climbing(es, e, parent, subdirs', dirs')
  {
    AncestorUp(cursor, e.path);
    ClimbSubdirs(es, e, cursor, subdirs);
    ClimbDirs(es, e, cursor, dirs);
  }

  lemma ClimbEnd(es: seq<Entry>, e: Entry, cursor: Path, subdirs: map<Path, seq<string>>, dirs: seq<Path>)
    requires cursor == [] && Climbing(es, e, cursor, subdirs, dirs)
    ensures SubdirsHeld(es + [e], subdirs) && DirsSeen(es + [e], dirs)
  {
    assert forall x :: x in es + [e] <==> x in es || x == e;
    forall d
      ensures d in dirs <==> IsDir(es + [e], d)
    {
      assert DirsFromAt(es, e, 0, dirs, d);
      assert IsDir(es + [e], d) <==> IsDir(es, d) || Ancestor(d, e.path);
    }
    forall d
      ensures Get(subdirs, d) == Subdirs(es + [e], d)
    {
      assert SubdirsFromAt(es, e, 0, subdirs, d);
    }
  }

  /** Climbs from `from` to the root, recording each directory under its parent. */
  method Climb(ghost es: seq<Entry>, ghost e: Entry, from: Path, subdirs0: map<Path, seq<string>>, dirs0: seq<Path>)
    returns (subdirs: map<Path, seq<string>>, dirs: seq<Path>)
    requires Climbing(es, e, from, subdirs0, dirs0)
    ensures Climbing(es, e, [], subdirs, dirs)
  {
    subdirs, dirs := subdirs0, dirs0;
    var cursor := from;
    while cursor != []
      invariant Climbing(es, e, cursor, subdirs, dirs)
      decreases |cursor|
    {
      var parent := cursor[..|cursor| - 1];
      var name := cursor[|cursor| - 1];
      var names := AddUnique(Get(subdirs, parent), name);
      ClimbStep(es, e, cursor, subdirs, dirs, parent, subdirs[parent := names], AddUnique(dirs, parent));
      subdirs, dirs, cursor := subdirs[parent := names], AddUnique(dirs, parent), parent;
    }
    assert cursor == [];
  }

  method RecordAncestors(ghost es: seq<Entry>, e: Entry, subdirs0: map<Path, seq<string>>, dirs0: seq<Path>)
    returns (subdirs: map<Path, seq<string>>, dirs: seq<Path>)
    requires e.path != []
    requires SubdirsHeld(es, subdirs0) && DirsSeen(es, dirs0)
    ensures SubdirsHeld(es + [e], subdirs) && DirsSeen(es + [e], dirs)
  {
    var dir := e.path[..|e.path| - 1];
    ClimbStart(es, e, dir, subdirs0, dirs0);
    subdirs, dirs := Climb(es, e, dir, subdirs0, AddUnique(dirs0, dir));
    ClimbEnd(es, e, [], subdirs, dirs);
  }

  lemma RecordFile(es: seq<Entry>, e: Entry, files: map<Path, seq<Entry>>)
    requires e.path != []
    requires FilesHeld(es, files)
    ensures
      var dir := e.path[..|e.path| - 1];
      FilesHeld(es + [e], files[dir := Get(files, dir) + [e]])
  {
    var dir := e.path[..|e.path| - 1];
    forall d
      ensures Get(files[dir := Get(files, dir) + [e]], d) == FilesOf(es + [e], d)
    {
      FilesOfSnoc(es, e, d);
      assert Get(files, d) == FilesOf(es, d);
    }
  }

  method Group(es: seq<Entry>)
    returns (files: map<Path, seq<Entry>>, subdirs: map<Path, seq<string>>, dirs: seq<Path>)
    requires forall e | e in es :: e.path != []
    ensures Grouped(es, files, subdirs, dirs)
  {
    files, subdirs, dirs := map[], map[], [[]];
    for i := 0 to |es|
      invariant Grouped(es[..i], files, subdirs, dirs)
    {
      var e := es[i];
      var dir := e.path[..|e.path| - 1];
      RecordFile(es[..i], e, files);
      files := files[dir := Get(files, dir) + [e]];
      subdirs, dirs := RecordAncestors(es[..i], e, subdirs, dirs);
      assert es[..i + 1] == es[..i] + [e];
    }
    assert es[..|es|] == es;
  }

  /** Deepest directories first. */
  function DepthKey(d: Path): Bytes { [-|d|] }

  lemma DeeperFirst(ordered: seq<Path>, k: nat, child: Path)
    requires Sorted(DepthKey, ordered) && k < |ordered|
    requires child in ordered && |child| == |ordered[k]| + 1
    ensures child in ordered[..k]
  {
    var m :| 0 <= m < |ordered| && ordered[m] == child;
    assert LexLess(DepthKey(child), DepthKey(ordered[k]));
    assert m < k;
    assert ordered[..k][m] == child;
  }

  method BuildTreeLevel(writer: LooseObjectWriter, children: seq<Child>) returns (id: Oid)
    requires writer.Valid()
    modifies writer
    ensures writer.Valid()
    ensures id == writer.hash(Frame("tree", Payload(SortTreeEntries(children)))) && id in writer.objects
    ensures writer.objects
         == Stored(old(writer.objects), id, Frame("tree", Payload(SortTreeEntries(children))))
  {
    var payload := SerializeTreePayload(SortTreeEntries(children));
    id := writer.Write("tree", payload);
  }

  method LevelChildren(ghost hash: Bytes -> Oid, ghost es: seq<Entry>, d: Path, files: seq<Entry>,
                       names: seq<string>, treeByDir: map<Path, Oid>)
    returns (r: Result<seq<Child>, BuildError>)
    requires files == FilesOf(es, d) && names == Subdirs(es, d)
    requires forall n | n in names :: d + [n] in treeByDir && treeByDir[d + [n]] == TreeId(hash, es, d + [n])
    ensures r == Ok(Children(hash, es, d))
  {
    var children: seq<Child> := [];
    FilesOfAre(es, d);
    for i := 0 to |files|
      invariant children == Files(es, d)[..i]
    {
      children := children + [FileChild(files[i])];
    }
    SubtreesAt(hash, es, d, names);
    for i := 0 to |names|
      invariant children == Files(es, d) + Subtrees(hash, es, d, names)[..i]
    {
      var childDir := d + [names[i]];
      if childDir !in treeByDir {
        assert false;
        return Err(MissingSubtree(childDir));
      }
      children := children + [Child(Directory, names[i], treeByDir[childDir])];
    }
    assert Subtrees(hash, es, d, names)[..|names|] == Subtrees(hash, es, d, names);
    assert Files(es, d)[..|files|] == Files(es, d);
    return Ok(children);
  }

  ghost predicate NewObject(hash: Bytes -> Oid, es: seq<Entry>, now: map<Oid, Bytes>, done: seq<Path>, o: Oid)
    requires o in now
  {
    exists d | d in done :: o == TreeId(hash, es, d) && now[o] == TreeFrame(hash, es, d)
  }

  /** What the store looks like after the levels in `done` were written. */
  ghost predicate StoreGrew(hash: Bytes -> Oid, es: seq<Entry>, before: map<Oid, Bytes>, now: map<Oid, Bytes>,
                            done: seq<Path>) {
    && (forall o | o in before :: o in now && now[o] == before[o])
    && (forall d | d in done :: TreeId(hash, es, d) in now)
    && (forall o | o in now && o !in before :: NewObject(hash, es, now, done, o))
  }

  /** Builds one directory whose subdirectories are all built. */
  method BuildDirectory(writer: LooseObjectWriter, ghost es: seq<Entry>, ghost before: map<Oid, Bytes>,
                        ghost done: seq<Path>, d: Path, files: seq<Entry>, names: seq<string>,
                        treeByDir: map<Path, Oid>)
    returns (id: Oid)
    requires writer.Valid()
    requires files == FilesOf(es, d) && names == Subdirs(es, d)
    requires Ready(writer.hash, es, d, names, treeByDir)
    requires StoreGrew(writer.hash, es, before, writer.objects, done)
    modifies writer
    ensures writer.Valid()
    ensures id == TreeId(writer.hash, es, d)
    ensures StoreGrew(writer.hash, es, before, writer.objects, done + [d])
  {
    var level := LevelChildren(writer.hash, es, d, files, names, treeByDir);
    ghost var held := writer.objects;
    id := BuildTreeLevel(writer, level.value);
    StoreStep(writer.hash, es, before, held, writer.objects, done, d);
  }

  /** Directories `..k` of the order are built. */
  ghost predicate BuiltTo(hash: Bytes -> Oid, es: seq<Entry>, treeByDir: map<Path, Oid>, before: map<Oid, Bytes>,
                          now: map<Oid, Bytes>, ordered: seq<Path>, k: nat) {
    && k <= |ordered|
    && LevelsBuilt(hash, es, treeByDir, ordered[..k])
    && StoreGrew(hash, es, before, now, ordered[..k])
  }

  /** The grouped entries and the building order of their directories. */
  ghost predicate Planned(es: seq<Entry>, files: map<Path, seq<Entry>>, subdirs: map<Path, seq<string>>,
                          dirs: seq<Path>, ordered: seq<Path>) {
    Grouped(es, files, subdirs, dirs) && ordered == SortOn(DepthKey, dirs)
  }

  lemma PlannedAt(es: seq<Entry>, files: map<Path, seq<Entry>>, subdirs: map<Path, seq<string>>, dirs: seq<Path>,
                  ordered: seq<Path>, d: Path)
    requires Planned(es, files, subdirs, dirs, ordered)
    ensures Get(files, d) == FilesOf(es, d) && Get(subdirs, d) == Subdirs(es, d)
  {
  }

  /** The subdirectories of a directory are built, with their own ids. */
  ghost predicate Ready(hash: Bytes -> Oid, es: seq<Entry>, d: Path, names: seq<string>, treeByDir: map<Path, Oid>) {
    forall n | n in names :: d + [n] in treeByDir && treeByDir[d + [n]] == TreeId(hash, es, d + [n])
  }

  lemma ReadyNext(hash: Bytes -> Oid, es: seq<Entry>, files: map<Path, seq<Entry>>, subdirs: map<Path, seq<string>>,
                  dirs: seq<Path>, ordered: seq<Path>, k: nat, treeByDir: map<Path, Oid>)
    requires Planned(es, files, subdirs, dirs, ordered) && k < |ordered|
    requires LevelsBuilt(hash, es, treeByDir, ordered[..k])
    ensures Ready(hash, es, ordered[k], Subdirs(es, ordered[k]), treeByDir)
  {
    SubtreesReady(hash, es, dirs, k, treeByDir);
  }

  lemma LevelAdded(hash: Bytes -> Oid, es: seq<Entry>, treeByDir: map<Path, Oid>, done: seq<Path>, d: Path)
    requires LevelsBuilt(hash, es, treeByDir, done)
    ensures LevelsBuilt(hash, es, treeByDir[d := TreeId(hash, es, d)], done + [d])
  {
  }

  /** One more directory of the order. */
  method BuildNext(writer: LooseObjectWriter, es: seq<Entry>, files: map<Path, seq<Entry>>,
                   subdirs: map<Path, seq<string>>, ghost dirs: seq<Path>, ordered: seq<Path>, k: nat,
                   treeByDir0: map<Path, Oid>, ghost before: map<Oid, Bytes>)
    returns (treeByDir: map<Path, Oid>)
    requires writer.Valid() && Planned(es, files, subdirs, dirs, ordered) && k < |ordered|
    requires BuiltTo(writer.hash, es, treeByDir0, before, writer.objects, ordered, k)
    modifies writer
    ensures writer.Valid()
    ensures BuiltTo(writer.hash, es, treeByDir, before, writer.objects, ordered, k + 1)
  {
    var d := ordered[k];
    PlannedAt(es, files, subdirs, dirs, ordered, d);
    ReadyNext(writer.hash, es, files, subdirs, dirs, ordered, k, treeByDir0);
    LevelAdded(writer.hash, es, treeByDir0, ordered[..k], d);
    assert ordered[..k + 1] == ordered[..k] + [d];
    var id := BuildDirectory(writer, es, before, ordered[..k], d, Get(files, d), Get(subdirs, d), treeByDir0);
    treeByDir := treeByDir0[d := id];
  }

  /** The deepest-first loop over the grouped directories. */
  method BuildLevels(writer: LooseObjectWriter, es: seq<Entry>, files: map<Path, seq<Entry>>,
                     subdirs: map<Path, seq<string>>, dirs: seq<Path>, ordered: seq<Path>)
    returns (treeByDir: map<Path, Oid>)
    requires writer.Valid() && Planned(es, files, subdirs, dirs, ordered)
    modifies writer
    ensures writer.Valid()
    ensures LevelsBuilt(writer.hash, es, treeByDir, ordered)
    ensures StoreGrew(writer.hash, es, old(writer.objects), writer.objects, ordered)
  {
    ghost var before := writer.objects;
    treeByDir := map[];
    for k := 0 to |ordered|
      invariant writer.Valid()
      invariant BuiltTo(writer.hash, es, treeByDir, before, writer.objects, ordered, k)
    {
      treeByDir := BuildNext(writer, es, files, subdirs, dirs, ordered, k, treeByDir, before);
    }
    assert ordered[..|ordered|] == ordered;
  }

  /**
   * Builds every subtree before the parent that references it. The missing-subtree error is
   * unreachable; the only failure left is a root id that names something other than a tree.
   */
  method BuildTreeFromEntries(writer: LooseObjectWriter, es: seq<Entry>) returns (r: Result<Oid, BuildError>)
    requires writer.Valid()
    requires ValidEntries(es)
    modifies writer
    ensures writer.Valid()
    ensures
      var root := TreeId(writer.hash, es, []);
      && root in writer.objects
      && r == if KindOf(writer.objects[root]) == Utf8("tree") then Ok(root) else Err(NotATree)
    ensures exists done ::
              DirsSeen(es, done) && StoreGrew(writer.hash, es, old(writer.objects), writer.objects, done)
  {
    var files, subdirs, dirs := Group(es);
    var ordered := SortOn(DepthKey, dirs);
    OrderedDirs(es, dirs);
    var treeByDir := BuildLevels(writer, es, files, subdirs, dirs, ordered);
    assert IsDir(es, []);
    var root := treeByDir[[]];
    if KindOf(writer.objects[root]) != Utf8("tree") {
      return Err(NotATree);
    }
    return Ok(root);
  }

  ghost predicate LevelsBuilt(hash: Bytes -> Oid, es: seq<Entry>, treeByDir: map<Path, Oid>, done: seq<Path>) {
    && (forall d :: d in treeByDir <==> d in done)
    && (forall d | d in treeByDir :: treeByDir[d] == TreeId(hash, es, d))
  }

  lemma OrderedDirs(es: seq<Entry>, dirs: seq<Path>)
    requires DirsSeen(es, dirs)
    ensures DirsSeen(es, SortOn(DepthKey, dirs)) && Sorted(DepthKey, SortOn(DepthKey, dirs))
  {
    SortIsSorted(DepthKey, dirs);
    forall d
      ensures d in SortOn(DepthKey, dirs) <==> d in dirs
    {
      SortMember(DepthKey, dirs, d);
    }
  }

  /** When a directory's turn comes, all its subdirectories have been built. */
  lemma SubtreesReady(hash: Bytes -> Oid, es: seq<Entry>, dirs: seq<Path>, k: nat, treeByDir: map<Path, Oid>)
    requires DirsSeen(es, dirs)
    requires k < |SortOn(DepthKey, dirs)|
    requires LevelsBuilt(hash, es, treeByDir, SortOn(DepthKey, dirs)[..k])
    ensures
      var d := SortOn(DepthKey, dirs)[k];
      forall n | n in Subdirs(es, d) :: d + [n] in treeByDir && treeByDir[d + [n]] == TreeId(hash, es, d + [n])
  {
    var ordered := SortOn(DepthKey, dirs);
    var d := ordered[k];
    OrderedDirs(es, dirs);
    forall n | n in Subdirs(es, d)
      ensures d + [n] in treeByDir
    {
      SubdirIsDir(es, d, n);
      DeeperFirst(ordered, k, d + [n]);
    }
  }

  lemma StoreStep(hash: Bytes -> Oid, es: seq<Entry>, before: map<Oid, Bytes>, held: map<Oid, Bytes>,
                  now: map<Oid, Bytes>, done: seq<Path>, d: Path)
    requires StoreGrew(hash, es, before, held, done)
    requires now == Stored(held, TreeId(hash, es, d), TreeFrame(hash, es, d))
    ensures StoreGrew(hash, es, before, now, done + [d])
  {
    var id := TreeId(hash, es, d);
    var more := done + [d];
    assert more[|done|] == d;
    assert forall x | x in done :: x in more;
    forall o | o in now && o !in before
      ensures NewObject(hash, es, now, more, o)
    {
      if o in held {
        assert NewObject(hash, es, held, done, o);
      }
    }
  }

  lemma SubdirIsDir(es: seq<Entry>, d: Path, n: string)
    requires n in Subdirs(es, d)
    ensures IsDir(es, d + [n])
  {
    InSubdirs(es, d, n);
    var e :| e in es && Below(e, d) && e.path[|d|] == n;
    assert e.path[..|d| + 1] == d + [n];
  }

  /** A store whose ids are the hashes of what they name. */
  ghost predicate Addressed(hash: Bytes -> Oid, objects: map<Oid, Bytes>) {
    forall o | o in objects :: hash(objects[o]) == o
  }

  /**
   * If the hash tells the new tree objects and the stored objects apart, the pass leaves a store
   * from which the tree reads back as exactly the given entries, and the root check passes.
   */
  lemma BuiltTreeReadsBack(hash: Bytes -> Oid, es: seq<Entry>, before: map<Oid, Bytes>, now: map<Oid, Bytes>,
                           done: seq<Path>, depth: nat)
    requires ValidEntries(es) && depth > MaxLen(es)
    requires DirsSeen(es, done) && StoreGrew(hash, es, before, now, done)
    requires Addressed(hash, before) && CollisionFree(hash, before.Values + TreeFrames(hash, es))
    ensures Addressed(hash, now)
    ensures KindOf(now[TreeId(hash, es, [])]) == Utf8("tree")
    ensures LsTree(now, TreeId(hash, es, []), depth) == Some(Listing(es))
  {
    LevelsAreGenuine(hash, es, before, now, done);
    StaysAddressed(hash, es, before, now, done);
    TreeReadsBack(hash, now, es, depth);
    assert IsDir(es, []);
    TreeFrameIsTree(hash, es, []);
  }

  lemma TreeFrameIsTree(hash: Bytes -> Oid, es: seq<Entry>, d: Path)
    ensures KindOf(TreeFrame(hash, es, d)) == Utf8("tree")
  {
    FrameDecodes("tree", Payload(SortTreeEntries(Children(hash, es, d))));
  }

  lemma LevelsAreGenuine(hash: Bytes -> Oid, es: seq<Entry>, before: map<Oid, Bytes>, now: map<Oid, Bytes>,
                         done: seq<Path>)
    requires DirsSeen(es, done) && StoreGrew(hash, es, before, now, done)
    requires Addressed(hash, before) && CollisionFree(hash, before.Values + TreeFrames(hash, es))
    ensures forall d | IsDir(es, d) ::
              TreeId(hash, es, d) in now && now[TreeId(hash, es, d)] == TreeFrame(hash, es, d)
  {
    forall d | IsDir(es, d)
      ensures TreeId(hash, es, d) in now && now[TreeId(hash, es, d)] == TreeFrame(hash, es, d)
    {
      LevelIsGenuine(hash, es, before, now, done, d);
    }
  }

  lemma StaysAddressed(hash: Bytes -> Oid, es: seq<Entry>, before: map<Oid, Bytes>, now: map<Oid, Bytes>,
                       done: seq<Path>)
    requires StoreGrew(hash, es, before, now, done) && Addressed(hash, before)
    ensures Addressed(hash, now)
  {
    forall o | o in now
      ensures hash(now[o]) == o
    {
      if o !in before {
        assert NewObject(hash, es, now, done, o);
      }
    }
  }

  lemma LevelIsGenuine(hash: Bytes -> Oid, es: seq<Entry>, before: map<Oid, Bytes>, now: map<Oid, Bytes>,
                       done: seq<Path>, d: Path)
    requires DirsSeen(es, done) && StoreGrew(hash, es, before, now, done) && IsDir(es, d)
    requires Addressed(hash, before) && CollisionFree(hash, before.Values + TreeFrames(hash, es))
    ensures TreeId(hash, es, d) in now && now[TreeId(hash, es, d)] == TreeFrame(hash, es, d)
  {
    var id := TreeId(hash, es, d);
    assert d in done;
    DirsAre(es, d);
    assert TreeFrame(hash, es, d) in TreeFrames(hash, es);
    if id in before {
      assert before[id] in before.Values;
    } else {
      assert NewObject(hash, es, now, done, id);
      var x :| x in done && id == TreeId(hash, es, x) && now[id] == TreeFrame(hash, es, x);
      DirsAre(es, x);
      assert TreeFrame(hash, es, x) in TreeFrames(hash, es);
    }
  }
}
