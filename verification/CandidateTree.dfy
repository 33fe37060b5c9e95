/** From a workspace to its immutable tree id, and back from the tree to a commit it must cover. */
module CandidateTree {
  import opened Text
  import opened Sorting
  import opened GitObjects
  import opened MerkleTree
  import TreeBuilder
  import Walk = WorkspaceWalk
  import Meaning = WalkMeaning

  datatype TreeError = StateDirIsRoot | RefusedAt(path: Path) | BrokenBuild(reason: TreeBuilder.BuildError)

  datatype Snapshot = Snapshot(treeId: Oid, entries: seq<Entry>)

  /** Hypothesis on the hash: it tells every stored object and every new tree object apart. */
  ghost predicate NoCollision(hash: Bytes -> Oid, objects: map<Oid, Bytes>, es: seq<Entry>) {
    CollisionFree(hash, objects.Values + TreeFrames(hash, es))
  }

  /** The tree under `id` lists exactly `es`, in path order, at every reading depth that suffices. */
  ghost predicate Holds(objects: map<Oid, Bytes>, id: Oid, es: seq<Entry>) {
    forall depth: nat | depth > MaxLen(es) :: LsTree(objects, id, depth) == Some(MerkleTree.Listing(es))
  }

  /**
   * The whole ingestion. A successful run covers exactly the included files, and a collision-free
   * store gives them back; without a collision the only failures are the refused inputs.
   */
  method ComputeCandidateTree(writer: LooseObjectWriter, workspace: string, excludeDir: Option<string>,
                              options: Walk.Config, root: Walk.Listing)
    returns (r: Result<Snapshot, TreeError>)
    requires writer.Valid() && Walk.RealListing(root)
    modifies writer
    ensures writer.Valid()
    ensures r == Err(StateDirIsRoot) <==> Walk.ExcludePrefix(excludeDir, workspace).Err?
    ensures r.Ok? ==>
      var cfg := options.(excludePrefix := Walk.ExcludePrefix(excludeDir, workspace).value);
      && (forall e :: e in r.value.entries <==> Walk.Included(cfg, writer.hash, root, e))
      && (forall p :: !Walk.Refused(cfg, root, p))
      && ValidEntries(r.value.entries)
      && (forall e | e in r.value.entries :: e.sha in writer.objects)
      && r.value.treeId == TreeId(writer.hash, r.value.entries, [])
      && (TreeBuilder.Addressed(writer.hash, old(writer.objects))
          && NoCollision(writer.hash, writer.objects, r.value.entries)
          ==> Holds(writer.objects, r.value.treeId, r.value.entries))
    ensures r.Err? && r.error.RefusedAt? ==>
      Walk.Refused(options.(excludePrefix := Walk.ExcludePrefix(excludeDir, workspace).value), root, r.error.path)
    ensures r.Err? && r.error.BrokenBuild? ==>
      var cfg := options.(excludePrefix := Walk.ExcludePrefix(excludeDir, workspace).value);
      && r.error.reason == TreeBuilder.NotATree
      && exists es ::
           && ValidEntries(es) && (forall e :: e in es <==> Walk.Included(cfg, writer.hash, root, e))
           && !(TreeBuilder.Addressed(writer.hash, old(writer.objects)) && NoCollision(writer.hash, writer.objects, es))
  {
    var prefix := Walk.ExcludePrefix(excludeDir, workspace);
    if prefix.Err? { return Err(StateDirIsRoot); }
    var cfg := options.(excludePrefix := prefix.value);
    var walked := Walk.CollectEntries(writer, cfg, root);
    if walked.Err? { return Err(RefusedAt(walked.error)); }
    ghost var before := writer.objects;
    var built := TreeBuilder.BuildTreeFromEntries(writer, walked.value);
    ghost var hash, es, now := writer.hash, walked.value, writer.objects;
    ghost var done :| TreeBuilder.DirsSeen(es, done) && TreeBuilder.StoreGrew(hash, es, before, now, done);
    if TreeBuilder.Addressed(hash, old(writer.objects)) && NoCollision(hash, now, es) {
      ReadsBack(hash, es, before, now, done);
    }
    if built.Err? { return Err(BrokenBuild(built.error)); }
    return Ok(Snapshot(built.value, walked.value));
  }

  lemma ReadsBack(hash: Bytes -> Oid, es: seq<Entry>, before: map<Oid, Bytes>, now: map<Oid, Bytes>, done: seq<Path>)
    requires ValidEntries(es)
    requires TreeBuilder.DirsSeen(es, done) && TreeBuilder.StoreGrew(hash, es, before, now, done)
    requires TreeBuilder.Addressed(hash, before) && NoCollision(hash, now, es)
    ensures Holds(now, TreeId(hash, es, []), es)
    ensures KindOf(now[TreeId(hash, es, [])]) == Utf8("tree")
  {
    assert IsDir(es, []);
    forall f | f in before.Values
      ensures f in now.Values
    {
      var o :| o in before && before[o] == f;
      assert now[o] == f;
    }
    forall depth: nat | depth > MaxLen(es)
      ensures LsTree(now, TreeId(hash, es, []), depth) == Some(MerkleTree.Listing(es))
    {
      TreeBuilder.BuiltTreeReadsBack(hash, es, before, now, done, depth);
    }
    TreeBuilder.BuiltTreeReadsBack(hash, es, before, now, done, MaxLen(es) + 1);
  }

  // ---------------------------------------------------------------- the id tells workspaces apart

  /** `p` is a regular file that the walk reads. */
  ghost predicate IsIncludedFile(cfg: Walk.Config, root: Walk.Listing, p: Path, executable: bool, bytes: Bytes) {
    Meaning.Visited(cfg, root, p) && Meaning.Plain(cfg, p) && Walk.Lookup(root, p) == Some(Walk.File(executable, bytes))
  }

  lemma BlobsDiffer(hash: Bytes -> Oid, bytes: Bytes, bytes': Bytes)
    requires bytes != bytes' && CollisionFree(hash, {Frame("blob", bytes), Frame("blob", bytes')})
    ensures hash(Frame("blob", bytes)) != hash(Frame("blob", bytes'))
  {
    if Frame("blob", bytes) == Frame("blob", bytes') {
      FrameInjective("blob", bytes, "blob", bytes');
    }
  }

  /** An entry of one list only makes the ids differ. */
  lemma OneEntryDecides(hash: Bytes -> Oid, es: seq<Entry>, es': seq<Entry>, e: Entry)
    requires ValidEntries(es) && ValidEntries(es') && e in es && e !in es'
    requires CollisionFree(hash, TreeFrames(hash, es) + TreeFrames(hash, es'))
    ensures TreeId(hash, es, []) != TreeId(hash, es', [])
  {
    SameIdIffSameEntries(hash, es, es');
  }

  /**
   * Two workspaces that differ in the bytes or the executable bit of one included file get different tree ids, when the
   * hash tells the two files' blobs and the tree objects of both apart.
   */
  lemma ChangedFileChangesTheId(hash: Bytes -> Oid, cfg: Walk.Config, root: Walk.Listing, root': Walk.Listing, p: Path,
                                x: bool, bytes: Bytes, x': bool, bytes': Bytes, es: seq<Entry>, es': seq<Entry>)
    requires IsIncludedFile(cfg, root, p, x, bytes) && IsIncludedFile(cfg, root', p, x', bytes')
    requires x != x' || bytes != bytes'
    requires ValidEntries(es) && forall e :: e in es <==> Walk.Included(cfg, hash, root, e)
    requires ValidEntries(es') && forall e :: e in es' <==> Walk.Included(cfg, hash, root', e)
    requires CollisionFree(hash, {Frame("blob", bytes), Frame("blob", bytes')})
    requires CollisionFree(hash, TreeFrames(hash, es) + TreeFrames(hash, es'))
    ensures TreeId(hash, es, []) != TreeId(hash, es', [])
  {
    var sha := hash(Frame("blob", bytes));
    var e := Entry(if x then Executable else Regular, sha, p);
    assert e in es by {
      Meaning.FileIsIncluded(cfg, hash, root, p, x, bytes);
    }
    assert e !in es' by {
      Meaning.FileIsIncluded(cfg, hash, root', p, x', bytes');
      if bytes != bytes' {
        BlobsDiffer(hash, bytes, bytes');
      }
    }
    OneEntryDecides(hash, es, es', e);
  }

  // ---------------------------------------------------------------- covering a commit

  datatype Identity = Identity(mode: Mode, sha: Oid)

  /** Approved exclusions, compared on listed paths. */
  predicate Skipped(path: Bytes, docs: seq<string>, cache: seq<string>) {
    || (exists f | f in docs :: path == Utf8(f) || Utf8(f + "/") <= path)
    || (exists f | f in cache :: path == Utf8(f))
  }

  /** The listing as a map; a later row for the same path wins. */
  function Identities(rows: seq<Listed>, docs: seq<string>, cache: seq<string>): map<Bytes, Identity> {
    if rows == [] then map[]
    else
      var rest, r := Identities(rows[..|rows| - 1], docs, cache), rows[|rows| - 1];
      if Skipped(r.path, docs, cache) then rest else rest[r.path := Identity(r.mode, r.sha)]
  }

  /** Every committed path is present with the same identity, and every extra path is git-ignored. */
  ghost predicate Covers(committed: map<Bytes, Identity>, candidate: map<Bytes, Identity>,
                         ignored: set<Bytes> -> Option<set<Bytes>>) {
    var extras := candidate.Keys - committed.Keys;
    && (forall p | p in committed :: p in candidate && candidate[p] == committed[p])
    && (extras == {} || (ignored(extras).Some? && extras <= ignored(extras).value))
  }

  method ListedIdentities(rows: Option<seq<Listed>>, docs: seq<string>, cache: seq<string>)
    returns (entries: Option<map<Bytes, Identity>>)
    ensures entries == match rows case None => None case Some(rs) => Some(Identities(rs, docs, cache))
  {
    if rows.None? { return None; }
    var m: map<Bytes, Identity> := map[];
    for i := 0 to |rows.value|
      invariant m == Identities(rows.value[..i], docs, cache)
    {
      var r := rows.value[i];
      assert rows.value[..i + 1][..i] == rows.value[..i];
      if !Skipped(r.path, docs, cache) {
        m := m[r.path := Identity(r.mode, r.sha)];
      }
    }
    assert rows.value[..|rows.value|] == rows.value;
    return Some(m);
  }

  method CandidateTreeCoversCommit(commit: Option<seq<Listed>>, tree: Option<seq<Listed>>, docs: seq<string>,
                                   cache: seq<string>, ignored: set<Bytes> -> Option<set<Bytes>>)
    returns (covered: bool)
    ensures covered <==>
      commit.Some? && tree.Some?
      && Covers(Identities(commit.value, docs, cache), Identities(tree.value, docs, cache), ignored)
  {
    var committed := ListedIdentities(commit, docs, cache);
    var candidate := ListedIdentities(tree, docs, cache);
    if committed.None? || candidate.None? { return false; }
    var todo := committed.value.Keys;
    while todo != {}
      invariant todo <= committed.value.Keys
      invariant forall p | p in committed.value && p !in todo ::
                  p in candidate.value && candidate.value[p] == committed.value[p]
      decreases todo
    {
      var p :| p in todo;
      if p !in candidate.value || candidate.value[p] != committed.value[p] { return false; }
      todo := todo - {p};
    }
    var extras := set p | p in candidate.value && p !in committed.value;
    assert extras == candidate.value.Keys - committed.value.Keys;
    if extras == {} { return true; }
    var ign := ignored(extras);
    if ign.None? { return false; }
    return extras <= ign.value;
  }

  lemma LastPathIsNew(rows: seq<Listed>, init: seq<Listed>, last: Listed)
    requires rows == init + [last] && StrictlySorted(RowKey, rows)
    ensures StrictlySorted(RowKey, init)
    ensures forall x | x in init :: x.path != last.path
  {
    forall i, j | 0 <= i < j < |init|
      ensures LexLess(RowKey(init[i]), RowKey(init[j]))
    {
      assert LexLess(RowKey(rows[i]), RowKey(rows[j]));
    }
    forall x | x in init
      ensures x.path != last.path
    {
      var i :| 0 <= i < |init| && init[i] == x;
      assert LexLess(RowKey(rows[i]), RowKey(rows[|init|]));
      LexTrichotomy(x.path, last.path);
    }
  }

  lemma {:induction false} IdentityKeys(rows: seq<Listed>, docs: seq<string>, cache: seq<string>, path: Bytes)
    ensures path in Identities(rows, docs, cache) ==> exists x | x in rows :: x.path == path
  {
    if rows != [] {
      var init, last := rows[..|rows| - 1], rows[|rows| - 1];
      IdentityKeys(init, docs, cache, path);
      assert rows == init + [last];
    }
  }

  lemma {:induction false} IdentitiesOf(rows: seq<Listed>, docs: seq<string>, cache: seq<string>, r: Listed)
    requires StrictlySorted(RowKey, rows)
    ensures r in rows && !Skipped(r.path, docs, cache) <==>
              r.path in Identities(rows, docs, cache)
              && Identities(rows, docs, cache)[r.path] == Identity(r.mode, r.sha)
    ensures r.path in Identities(rows, docs, cache) ==> exists x | x in rows :: x.path == r.path
  {
    IdentityKeys(rows, docs, cache, r.path);
    if rows != [] {
      var init, last := rows[..|rows| - 1], rows[|rows| - 1];
      assert rows == init + [last];
      LastPathIsNew(rows, init, last);
      IdentitiesOf(init, docs, cache, r);
      IdentityKeys(init, docs, cache, r.path);
    }
  }

  /**
   * Two trees read back as `mine` and `theirs`: the candidate covers the commit exactly when every
   * committed entry outside the exclusions is a candidate entry and the other candidate paths are ignored.
   */
  lemma CoveringMeansContaining(mine: seq<Entry>, theirs: seq<Entry>, docs: seq<string>, cache: seq<string>,
                                ignored: set<Bytes> -> Option<set<Bytes>>)
    requires ValidEntries(mine) && ValidEntries(theirs)
    ensures
      var committed := Identities(MerkleTree.Listing(theirs), docs, cache);
      var candidate := Identities(MerkleTree.Listing(mine), docs, cache);
      var extras := candidate.Keys - committed.Keys;
      Covers(committed, candidate, ignored) <==>
        (forall e | e in theirs && !Skipped(PathBytes(e.path), docs, cache) :: e in mine)
        && (extras == {} || (ignored(extras).Some? && extras <= ignored(extras).value))
  {
    var committed := Identities(MerkleTree.Listing(theirs), docs, cache);
    var candidate := Identities(MerkleTree.Listing(mine), docs, cache);
    if forall p | p in committed :: p in candidate && candidate[p] == committed[p] {
      forall e | e in theirs && !Skipped(PathBytes(e.path), docs, cache)
        ensures e in mine
      {
        EntryListed(theirs, docs, cache, e);
        EntryListed(mine, docs, cache, e);
      }
    }
    if forall e | e in theirs && !Skipped(PathBytes(e.path), docs, cache) :: e in mine {
      forall p | p in committed
        ensures p in candidate && candidate[p] == committed[p]
      {
        var e := ListedEntry(theirs, docs, cache, p);
        EntryListed(mine, docs, cache, e);
      }
    }
  }

  lemma EntryListed(es: seq<Entry>, docs: seq<string>, cache: seq<string>, e: Entry)
    requires ValidEntries(es) && ValidPath(e.path)
    ensures
      var m := Identities(MerkleTree.Listing(es), docs, cache);
      e in es && !Skipped(PathBytes(e.path), docs, cache) <==>
        PathBytes(e.path) in m && m[PathBytes(e.path)] == Identity(e.mode, e.sha)
  {
    var r := Listed(PathBytes(e.path), e.mode, e.sha);
    ListingProperties(es);
    IdentitiesOf(MerkleTree.Listing(es), docs, cache, r);
    assert e.path[0..] == e.path;
    if e in es {
      assert r == Row(e, 0);
      assert RowBelow(es, [], r);
    }
    if RowBelow(es, [], r) {
      var f :| f in es && 0 < |f.path| && r == Row(f, 0);
      assert f.path[0..] == f.path;
      PathBytesInjective(e.path, f.path);
      assert f == e;
    }
  }

  lemma ListedEntry(es: seq<Entry>, docs: seq<string>, cache: seq<string>, p: Bytes) returns (e: Entry)
    requires ValidEntries(es)
    requires p in Identities(MerkleTree.Listing(es), docs, cache)
    ensures e in es && ValidPath(e.path) && !Skipped(p, docs, cache) && PathBytes(e.path) == p
    ensures Identities(MerkleTree.Listing(es), docs, cache)[p] == Identity(e.mode, e.sha)
  {
    var rows := MerkleTree.Listing(es);
    var id := Identities(rows, docs, cache)[p];
    var r := Listed(p, id.mode, id.sha);
    ListingProperties(es);
    IdentitiesOf(rows, docs, cache, r);
    assert RowBelow(es, [], r);
    e :| e in es && 0 < |e.path| && r == Row(e, 0);
    assert e.path[0..] == e.path;
  }

  /** The path is at or below an approved documentation folder, or an approved bytecode file. */
  ghost predicate LeftOut(path: string, docs: seq<string>, cache: seq<string>) {
    || (exists k :: 0 <= k < |docs| && AtOrBelow(path, docs[k]))
    || (exists k :: 0 <= k < |cache| && path == cache[k])
  }

  lemma FolderBytes(path: string, folder: string)
    ensures Utf8(path) == Utf8(folder) <==> path == folder
    ensures Utf8(path) == Utf8(folder) || Utf8(folder + "/") <= Utf8(path) <==> AtOrBelow(path, folder)
  {
    if Utf8(path) == Utf8(folder) {
      Utf8Injective(path, folder);
    }
    Utf8IsPrefixCode();
    EncodePrefix(Utf8Char, folder + "/", path);
    UnderIs(path, folder);
  }

  lemma SkippedIs(path: string, docs: seq<string>, cache: seq<string>)
    ensures Skipped(Utf8(path), docs, cache) <==> LeftOut(path, docs, cache)
  {
    forall f
      ensures Utf8(path) == Utf8(f) <==> path == f
      ensures Utf8(path) == Utf8(f) || Utf8(f + "/") <= Utf8(path) <==> AtOrBelow(path, f)
    {
      FolderBytes(path, f);
    }
    assert forall k | 0 <= k < |docs| :: docs[k] in docs;
    assert forall k | 0 <= k < |cache| :: cache[k] in cache;
  }

  /** An entry of the candidate that no exclusion leaves out and whose path the commit does not have. */
  ghost predicate IsExtra(mine: seq<Entry>, theirs: seq<Entry>, docs: seq<string>, cache: seq<string>, e: Entry) {
    && e in mine && !LeftOut(Join(e.path, '/'), docs, cache)
    && forall t | t in theirs :: t.path != e.path
  }

  ghost predicate AreExtras(mine: seq<Entry>, theirs: seq<Entry>, docs: seq<string>, cache: seq<string>,
                            extras: set<Bytes>) {
    forall p :: p in extras <==> exists e :: IsExtra(mine, theirs, docs, cache, e) && p == Utf8(Join(e.path, '/'))
  }

  lemma ListedWhen(es: seq<Entry>, docs: seq<string>, cache: seq<string>, e: Entry)
    requires ValidEntries(es) && ValidPath(e.path)
    ensures PathBytes(e.path) in Identities(MerkleTree.Listing(es), docs, cache) <==>
              !LeftOut(Join(e.path, '/'), docs, cache) && exists t :: t in es && t.path == e.path
  {
    var m := Identities(MerkleTree.Listing(es), docs, cache);
    SkippedIs(Join(e.path, '/'), docs, cache);
    if PathBytes(e.path) in m {
      var t := ListedEntry(es, docs, cache, PathBytes(e.path));
      PathBytesInjective(t.path, e.path);
    }
    if t :| t in es && t.path == e.path {
      EntryListed(es, docs, cache, t);
    }
  }

  lemma ExtrasAre(mine: seq<Entry>, theirs: seq<Entry>, docs: seq<string>, cache: seq<string>)
    requires ValidEntries(mine) && ValidEntries(theirs)
    ensures var committed := Identities(MerkleTree.Listing(theirs), docs, cache);
      var candidate := Identities(MerkleTree.Listing(mine), docs, cache);
      AreExtras(mine, theirs, docs, cache, candidate.Keys - committed.Keys)
  {
    var committed := Identities(MerkleTree.Listing(theirs), docs, cache);
    var candidate := Identities(MerkleTree.Listing(mine), docs, cache);
    forall p | p in candidate && p !in committed
      ensures exists e :: IsExtra(mine, theirs, docs, cache, e) && p == Utf8(Join(e.path, '/'))
    {
      var e := ListedEntry(mine, docs, cache, p);
      ListedWhen(mine, docs, cache, e);
      ListedWhen(theirs, docs, cache, e);
      assert IsExtra(mine, theirs, docs, cache, e);
    }
    forall e | IsExtra(mine, theirs, docs, cache, e)
      ensures PathBytes(e.path) in candidate && PathBytes(e.path) !in committed
    {
      ListedWhen(mine, docs, cache, e);
      ListedWhen(theirs, docs, cache, e);
    }
  }

  /**
   * When the tree of `mine` covers the commit of `theirs`, over the entries themselves: every committed entry that no
   * exclusion leaves out is a candidate entry, and Git says of all other candidate paths that it ignores them.
   */
  lemma WhenATreeCovers(mine: seq<Entry>, theirs: seq<Entry>, docs: seq<string>, cache: seq<string>,
                        ignored: set<Bytes> -> Option<set<Bytes>>)
    requires ValidEntries(mine) && ValidEntries(theirs)
    ensures var committed := Identities(MerkleTree.Listing(theirs), docs, cache);
      var candidate := Identities(MerkleTree.Listing(mine), docs, cache);
      Covers(committed, candidate, ignored) <==>
        && (forall e | e in theirs && !LeftOut(Join(e.path, '/'), docs, cache) :: e in mine)
        && exists extras :: AreExtras(mine, theirs, docs, cache, extras)
             && (extras == {} || (ignored(extras).Some? && forall p | p in extras :: p in ignored(extras).value))
  {
    CoveringMeansContaining(mine, theirs, docs, cache, ignored);
    ExtrasAre(mine, theirs, docs, cache);
    forall e | e in theirs
      ensures Skipped(PathBytes(e.path), docs, cache) <==> LeftOut(Join(e.path, '/'), docs, cache)
    {
      SkippedIs(Join(e.path, '/'), docs, cache);
    }
    var extras := Identities(MerkleTree.Listing(mine), docs, cache).Keys
      - Identities(MerkleTree.Listing(theirs), docs, cache).Keys;
    forall other | AreExtras(mine, theirs, docs, cache, other)
      ensures other == extras
    {
    }
  }

  // ---------------------------------------------------------------- paths as strings

  function LastIndexOf(s: string, c: char): (i: int)
    ensures -1 <= i < |s|
  {
    if s == [] then -1 else if s[|s| - 1] == c then |s| - 1 else LastIndexOf(s[..|s| - 1], c)
  }

  lemma {:induction false} LastIndexIs(head: string, tail: string, c: char)
    requires c !in tail
    ensures LastIndexOf(head + [c] + tail, c) == |head|
    decreases |tail|
  {
    var s := head + [c] + tail;
    if tail != [] {
      assert s[..|s| - 1] == head + [c] + tail[..|tail| - 1];
      LastIndexIs(head, tail[..|tail| - 1], c);
    }
  }

  lemma {:induction false} JoinSnoc(p: Path, name: string)
    requires p != []
    ensures Join(p + [name], '/') == Join(p, '/') + ['/'] + name
    decreases |p|
  {
    assert (p + [name])[1..] == p[1..] + [name];
    if |p| > 1 {
      JoinSnoc(p[1..], name);
    }
  }

  /** Cutting the joined text at its last slash yields the joined parent and the last name. */
  lemma CutAtLastSlash(dir: Path, name: string)
    requires dir != [] && '/' !in name
    ensures
      var text := Join(dir + [name], '/');
      var slash := LastIndexOf(text, '/');
      slash >= 0 && text[..slash] == Join(dir, '/') && text[slash + 1..] == name
  {
    JoinSnoc(dir, name);
    LastIndexIs(Join(dir, '/'), name, '/');
  }
}
