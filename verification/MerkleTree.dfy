/** The recursive meaning of a candidate tree: ids, listings and identity. */
module MerkleTree {
  import opened Text
  import opened Sorting
  import opened GitObjects

  /** A repo-relative path as the list of its names. */
  type Path = seq<string>

  datatype Entry = Entry(mode: Mode, sha: Oid, path: Path)

  predicate ValidPath(p: Path) { p != [] && forall n | n in p :: ValidName(n) }

  /** What the workspace walk hands to the tree builder: real file paths, each once. */
  ghost predicate ValidEntries(es: seq<Entry>) {
    && (forall e | e in es :: ValidPath(e.path) && !e.mode.Directory?)
    && (forall i, j | 0 <= i < j < |es| :: es[i].path != es[j].path)
  }

  predicate InDir(e: Entry, d: Path) { e.path != [] && e.path[..|e.path| - 1] == d }

  /** The entry lies in some directory inside `d`. */
  predicate Below(e: Entry, d: Path) { |d| + 2 <= |e.path| && e.path[..|d|] == d }

  function FileChild(e: Entry): Child
    requires e.path != []
  {
    Child(e.mode, e.path[|e.path| - 1], e.sha)
  }

  function AddUnique<T(==)>(s: seq<T>, x: T): seq<T> { if x in s then s else s + [x] }

  /** The files directly in `d`, in entry order. */
  function Files(es: seq<Entry>, d: Path): seq<Child> {
    if es == [] then []
    else
      var rest, e := Files(es[..|es| - 1], d), es[|es| - 1];
      if InDir(e, d) then rest + [FileChild(e)] else rest
  }

  /** The directories directly in `d`, in order of first mention. */
  function Subdirs(es: seq<Entry>, d: Path): (names: seq<string>)
    ensures names != [] ==> |d| + 2 <= MaxLen(es)
  {
    if es == [] then []
    else
      var rest, e := Subdirs(es[..|es| - 1], d), es[|es| - 1];
      if Below(e, d) then AddUnique(rest, e.path[|d|]) else rest
  }

  function MaxLen(es: seq<Entry>): nat {
    if es == [] then 0
    else
      var rest, here := MaxLen(es[..|es| - 1]), |es[|es| - 1].path|;
      if rest < here then here else rest
  }

  /** How many levels can still lie below `d`. */
  function Room(es: seq<Entry>, d: Path): nat { if |d| <= MaxLen(es) then MaxLen(es) - |d| else 0 }

  function TreeId(hash: Bytes -> Oid, es: seq<Entry>, d: Path): Oid
    decreases Room(es, d), 2, 0
  {
    hash(TreeFrame(hash, es, d))
  }

  function TreeFrame(hash: Bytes -> Oid, es: seq<Entry>, d: Path): Bytes
    decreases Room(es, d), 1, 0
  {
    Frame("tree", Payload(SortTreeEntries(Files(es, d) + Subtrees(hash, es, d, Subdirs(es, d)))))
  }

  function Subtrees(hash: Bytes -> Oid, es: seq<Entry>, d: Path, names: seq<string>): seq<Child>
    requires names != [] ==> |d| + 2 <= MaxLen(es)
    decreases Room(es, d), 0, |names|
  {
    if names == [] then []
    else
      Subtrees(hash, es, d, names[..|names| - 1])
      + [Child(Directory, names[|names| - 1], TreeId(hash, es, d + [names[|names| - 1]]))]
  }

  function Children(hash: Bytes -> Oid, es: seq<Entry>, d: Path): seq<Child> {
    Files(es, d) + Subtrees(hash, es, d, Subdirs(es, d))
  }

  // ---------------------------------------------------------------- what the levels contain

  lemma {:induction false} InFiles(es: seq<Entry>, d: Path, c: Child)
    ensures c in Files(es, d) <==> exists e | e in es :: InDir(e, d) && c == FileChild(e)
  {
    if es != [] {
      var init, last := es[..|es| - 1], es[|es| - 1];
      InFiles(init, d, c);
      assert es == init + [last];
    }
  }

  lemma {:induction false} InSubdirs(es: seq<Entry>, d: Path, n: string)
    ensures n in Subdirs(es, d) <==> exists e | e in es :: Below(e, d) && e.path[|d|] == n
  {
    if es != [] {
      var init, last := es[..|es| - 1], es[|es| - 1];
      InSubdirs(init, d, n);
      assert es == init + [last];
    }
  }

  lemma {:induction false} SubdirsDistinct(es: seq<Entry>, d: Path)
    ensures forall i, j | 0 <= i < j < |Subdirs(es, d)| :: Subdirs(es, d)[i] != Subdirs(es, d)[j]
  {
    if es != [] {
      SubdirsDistinct(es[..|es| - 1], d);
    }
  }

  lemma {:induction false} SubtreesAt(hash: Bytes -> Oid, es: seq<Entry>, d: Path, names: seq<string>)
    requires names != [] ==> |d| + 2 <= MaxLen(es)
    ensures |Subtrees(hash, es, d, names)| == |names|
    ensures forall i | 0 <= i < |names| ::
              Subtrees(hash, es, d, names)[i] == Child(Directory, names[i], TreeId(hash, es, d + [names[i]]))
    decreases |names|
  {
    if names != [] {
      SubtreesAt(hash, es, d, names[..|names| - 1]);
    }
  }

  lemma {:induction false} MaxLenBounds(es: seq<Entry>, e: Entry)
    requires e in es
    ensures |e.path| <= MaxLen(es)
  {
    var init, last := es[..|es| - 1], es[|es| - 1];
    assert es == init + [last];
    if e in init {
      MaxLenBounds(init, e);
    }
  }

  /** A directory of the tree: the root, or a proper ancestor of some entry. */
  ghost predicate IsDir(es: seq<Entry>, d: Path) {
    d == [] || exists e | e in es :: |d| < |e.path| && e.path[..|d|] == d
  }

  /** One child of `d`, seen from the entries. */
  ghost predicate IsChild(hash: Bytes -> Oid, es: seq<Entry>, d: Path, c: Child) {
    if c.mode.Directory?
    then (exists e | e in es :: Below(e, d) && e.path[|d|] == c.name) && c.sha == TreeId(hash, es, d + [c.name])
    else exists e | e in es :: InDir(e, d) && c == FileChild(e)
  }

  lemma InChildren(hash: Bytes -> Oid, es: seq<Entry>, d: Path, c: Child)
    requires ValidEntries(es)
    ensures c in Children(hash, es, d) <==> IsChild(hash, es, d, c)
  {
    var names := Subdirs(es, d);
    SubtreesAt(hash, es, d, names);
    InFiles(es, d, c);
    InSubdirs(es, d, c.name);
    var subs := Subtrees(hash, es, d, names);
    assert c in subs <==> c.mode.Directory? && c.name in names && c.sha == TreeId(hash, es, d + [c.name]) by {
      if c.name in names {
        var i :| 0 <= i < |names| && names[i] == c.name;
        assert subs[i] in subs;
      }
    }
    assert c in Children(hash, es, d) <==> c in Files(es, d) || c in subs;
  }

  lemma ChildNamesValid(hash: Bytes -> Oid, es: seq<Entry>, d: Path, c: Child)
    requires ValidEntries(es) && IsChild(hash, es, d, c)
    ensures ValidName(c.name)
  {
    if c.mode.Directory? {
      var e :| e in es && Below(e, d) && e.path[|d|] == c.name;
      assert e.path[|d|] in e.path;
    } else {
      var e :| e in es && InDir(e, d) && c == FileChild(e);
      assert e.path[|e.path| - 1] in e.path;
    }
  }

  lemma {:induction false} FilesAreFiles(es: seq<Entry>, d: Path)
    requires ValidEntries(es)
    ensures forall c | c in Files(es, d) :: !c.mode.Directory? && ValidName(c.name)
  {
    if es != [] {
      var init, last := es[..|es| - 1], es[|es| - 1];
      FilesAreFiles(init, d);
      assert ValidPath(last.path);
      assert InDir(last, d) ==> last.path[|last.path| - 1] in last.path;
    }
  }

  lemma NewFileName(init: seq<Entry>, d: Path, last: Entry, c: Child)
    requires ValidEntries(init + [last]) && ValidEntries(init)
    requires InDir(last, d) && c in Files(init, d)
    ensures c.name != last.path[|last.path| - 1]
  {
    var es := init + [last];
    InFiles(init, d, c);
    var e :| e in init && InDir(e, d) && c == FileChild(e);
    assert e.path == d + [e.path[|e.path| - 1]] && last.path == d + [last.path[|last.path| - 1]];
    var i :| 0 <= i < |init| && init[i] == e;
    assert es[i] == e && es[|init|] == last;
  }

  lemma {:induction false} FilesDistinct(es: seq<Entry>, d: Path)
    requires ValidEntries(es)
    ensures forall i, j | 0 <= i < j < |Files(es, d)| :: Files(es, d)[i].name != Files(es, d)[j].name
    ensures forall c | c in Files(es, d) :: !c.mode.Directory? && ValidName(c.name)
  {
    FilesAreFiles(es, d);
    if es != [] {
      var init, last := es[..|es| - 1], es[|es| - 1];
      assert es == init + [last];
      FilesDistinct(init, d);
      var rest := Files(init, d);
      forall i | 0 <= i < |rest| && InDir(last, d)
        ensures rest[i].name != last.path[|last.path| - 1]
      {
        NewFileName(init, d, last, rest[i]);
      }
    }
  }

  /** Siblings never share a sort key, so the canonical order is strict. */
  lemma ChildKeysDistinct(hash: Bytes -> Oid, es: seq<Entry>, d: Path)
    requires ValidEntries(es)
    ensures DistinctKeys(SortKey, Children(hash, es, d))
    ensures ValidChildren(Children(hash, es, d))
  {
    var cs, files, names := Children(hash, es, d), Files(es, d), Subdirs(es, d);
    FilesDistinct(es, d);
    SubdirsDistinct(es, d);
    SubtreesAt(hash, es, d, names);
    forall c | c in cs
      ensures ValidName(c.name)
    {
      InChildren(hash, es, d, c);
      ChildNamesValid(hash, es, d, c);
    }
    forall i, j | 0 <= i < j < |cs|
      ensures SortKey(cs[i]) != SortKey(cs[j])
    {
      assert cs[i] in cs && cs[j] in cs;
      KeyDecodes(cs[i], cs[j]);
      assert i < |files| <==> !cs[i].mode.Directory?;
      assert j < |files| <==> !cs[j].mode.Directory?;
    }
  }

  lemma KeyDecodes(c: Child, d: Child)
    requires ValidName(c.name) && ValidName(d.name)
    ensures SortKey(c) == SortKey(d) ==> c.name == d.name && (c.mode.Directory? <==> d.mode.Directory?)
  {
    SortKeyBytes(c);
    SortKeyBytes(d);
    var x, y := Utf8(c.name), Utf8(d.name);
    if SortKey(c) == SortKey(d) {
      SlashEndsAName(x, y);
      SlashEndsAName(y, x);
      assert x + [] == x && y + [] == y;
      if c.mode.Directory? {
        assert x == y;
      }
      Utf8Injective(c.name, d.name);
    }
  }

  // ---------------------------------------------------------------- reading the tree back

  /** One row of a recursive tree listing. */
  datatype Listed = Listed(path: Bytes, mode: Mode, sha: Oid)

  function RowKey(r: Listed): Bytes { r.path }

  function Prefixed(name: Bytes, rows: seq<Listed>): seq<Listed> {
    seq(|rows|, i requires 0 <= i < |rows| => rows[i].(path := name + [SLASH] + rows[i].path))
  }

  /** `git ls-tree -r`: reads tree objects out of the store, depth first, down to `depth` levels. */
  function LsTree(objects: map<Oid, Bytes>, id: Oid, depth: nat): Option<seq<Listed>>
    decreases depth, 0
  {
    if depth == 0 || id !in objects || KindOf(objects[id]) != Utf8("tree") then None
    else
      match ParseTree(PayloadOf(objects[id]))
      case None => None
      case Some(items) => LsItems(objects, items, depth - 1)
  }

  function LsItems(objects: map<Oid, Bytes>, items: seq<Item>, depth: nat): Option<seq<Listed>>
    decreases depth, 1, |items|
  {
    if items == [] then Some([])
    else
      match (LsItem(objects, items[0], depth), LsItems(objects, items[1..], depth))
      case (Some(here), Some(rest)) => Some(here + rest)
      case _ => None
  }

  function LsItem(objects: map<Oid, Bytes>, item: Item, depth: nat): Option<seq<Listed>>
    decreases depth, 1, 0
  {
    if item.mode.Directory? then
      match LsTree(objects, item.sha, depth)
      case None => None
      case Some(rows) => Some(Prefixed(item.name, rows))
    else Some([Listed(item.name, item.mode, item.sha)])
  }

  function PathBytes(p: Path): Bytes { Utf8(Join(p, '/')) }

  /** The row an entry is listed under, seen from a directory `k` levels deep. */
  function Row(e: Entry, k: nat): Listed
    requires k <= |e.path|
  {
    Listed(PathBytes(e.path[k..]), e.mode, e.sha)
  }

  ghost predicate RowBelow(es: seq<Entry>, d: Path, r: Listed) {
    exists e | e in es :: |d| < |e.path| && e.path[..|d|] == d && r == Row(e, |d|)
  }

  ghost predicate Reads(objects: map<Oid, Bytes>, id: Oid, depth: nat, rows: seq<Listed>) {
    LsTree(objects, id, depth) == Some(rows)
  }

  ghost predicate ReadsItems(objects: map<Oid, Bytes>, items: seq<Item>, depth: nat, rows: seq<Listed>) {
    LsItems(objects, items, depth) == Some(rows)
  }

  ghost predicate ReadsItem(objects: map<Oid, Bytes>, item: Item, depth: nat, rows: seq<Listed>) {
    LsItem(objects, item, depth) == Some(rows)
  }

  lemma ReadsItemsCons(objects: map<Oid, Bytes>, cs: seq<Child>, depth: nat, here: seq<Listed>, later: seq<Listed>)
    requires cs != []
    requires ReadsItem(objects, ItemOf(cs[0]), depth, here) && ReadsItems(objects, Items(cs[1..]), depth, later)
    ensures ReadsItems(objects, Items(cs), depth, here + later)
  {
    assert Items(cs)[0] == ItemOf(cs[0]) && Items(cs)[1..] == Items(cs[1..]);
  }

  /** The store holds every level of the tree under its own id. */
  ghost predicate Genuine(hash: Bytes -> Oid, objects: map<Oid, Bytes>, es: seq<Entry>) {
    forall d | IsDir(es, d) ::
      TreeId(hash, es, d) in objects && objects[TreeId(hash, es, d)] == TreeFrame(hash, es, d)
  }

  lemma PathBytesCons(name: string, rest: Path)
    requires rest != []
    ensures PathBytes([name] + rest) == Utf8(name) + [SLASH] + PathBytes(rest)
    ensures PathBytes([name]) == Utf8(name)
  {
    assert ([name] + rest)[1..] == rest;
    assert Join([name] + rest, '/') == name + ['/'] + Join(rest, '/');
    EncodeConcat(Utf8Char, name + ['/'], Join(rest, '/'));
    EncodeConcat(Utf8Char, name, ['/']);
    assert ['/'][1..] == "";
  }

  /** The rows listed under one child of `d`. */
  ghost predicate RowOf(es: seq<Entry>, d: Path, c: Child, r: Listed) {
    if c.mode.Directory?
    then exists e | e in es :: Below(e, d) && e.path[|d|] == c.name && r == Row(e, |d|)
    else r == Listed(Utf8(c.name), c.mode, c.sha)
  }

  lemma RowHasChild(hash: Bytes -> Oid, es: seq<Entry>, d: Path, r: Listed) returns (c: Child)
    requires ValidEntries(es) && RowBelow(es, d, r)
    ensures c in Children(hash, es, d) && RowOf(es, d, c, r)
  {
    var e :| e in es && |d| < |e.path| && e.path[..|d|] == d && r == Row(e, |d|);
    if |e.path| == |d| + 1 {
      c := FileChild(e);
      assert e.path[|d|..] == [c.name];
      assert InDir(e, d);
    } else {
      c := Child(Directory, e.path[|d|], TreeId(hash, es, d + [e.path[|d|]]));
      assert Below(e, d);
    }
    InChildren(hash, es, d, c);
  }

  lemma ChildRowIsBelow(hash: Bytes -> Oid, es: seq<Entry>, d: Path, c: Child, r: Listed)
    requires IsChild(hash, es, d, c) && RowOf(es, d, c, r)
    ensures RowBelow(es, d, r)
  {
    if c.mode.Directory? {
      var e :| e in es && Below(e, d) && e.path[|d|] == c.name && r == Row(e, |d|);
    } else {
      var e :| e in es && InDir(e, d) && c == FileChild(e);
      assert e.path[|d|..] == [c.name];
      assert e.path[..|d|] == d && r == Row(e, |d|);
    }
  }

  /** Rows of an earlier sibling come before rows of a later one, in path order. */
  lemma SiblingRowsOrdered(es: seq<Entry>, d: Path, c1: Child, c2: Child, r1: Listed, r2: Listed)
    requires ValidName(c1.name) && ValidName(c2.name)
    requires LexLess(SortKey(c1), SortKey(c2))
    requires RowOf(es, d, c1, r1) && RowOf(es, d, c2, r2)
    ensures LexLess(r1.path, r2.path)
  {
    var t1 := RowTail(es, d, c1, r1);
    var t2 := RowTail(es, d, c2, r2);
    TreeOrderIsPathOrder(c1, c2, t1, t2);
  }

  lemma RowTail(es: seq<Entry>, d: Path, c: Child, r: Listed) returns (t: Bytes)
    requires ValidName(c.name) && RowOf(es, d, c, r)
    ensures r.path == SortKey(c) + t
    ensures !c.mode.Directory? ==> t == []
  {
    SortKeyBytes(c);
    if c.mode.Directory? {
      var e :| e in es && Below(e, d) && e.path[|d|] == c.name && r == Row(e, |d|);
      assert e.path[|d|..] == [c.name] + e.path[|d| + 1..];
      PathBytesCons(c.name, e.path[|d| + 1..]);
      t := PathBytes(e.path[|d| + 1..]);
    } else {
      t := [];
      assert SortKey(c) + t == Utf8(c.name);
    }
  }

  /**
   * Reading one directory back through the store lists exactly the entries below it,
   * in strictly increasing byte order of their paths.
   */
  lemma {:induction false} DirectoryListing(
      hash: Bytes -> Oid, objects: map<Oid, Bytes>, es: seq<Entry>, d: Path, depth: nat)
    returns (rows: seq<Listed>)
    requires ValidEntries(es) && Genuine(hash, objects, es)
    requires IsDir(es, d) && depth > Room(es, d)
    ensures Reads(objects, TreeId(hash, es, d), depth, rows)
    ensures StrictlySorted(RowKey, rows)
    ensures forall r :: r in rows <==> RowBelow(es, d, r)
    decreases depth, 1, 0
  {
    var cs := SortedChildren(hash, es, d);
    rows := ChildrenListing(hash, objects, es, d, cs, depth - 1);
    LsTreeReads(hash, objects, es, d, depth, cs, rows);
    forall r
      ensures (exists c | c in cs :: RowOf(es, d, c, r)) <==> RowBelow(es, d, r)
    {
      RowsOfChildren(hash, es, d, cs, r);
    }
  }

  lemma RowsOfChildren(hash: Bytes -> Oid, es: seq<Entry>, d: Path, cs: seq<Child>, r: Listed)
    requires ValidEntries(es) && cs == SortTreeEntries(Children(hash, es, d))
    ensures (exists c | c in cs :: RowOf(es, d, c, r)) <==> RowBelow(es, d, r)
  {
    if RowBelow(es, d, r) {
      var c := RowHasChild(hash, es, d, r);
      SortMember(SortKey, Children(hash, es, d), c);
    }
    if c :| c in cs && RowOf(es, d, c, r) {
      SortMember(SortKey, Children(hash, es, d), c);
      InChildren(hash, es, d, c);
      ChildRowIsBelow(hash, es, d, c, r);
    }
  }

  lemma SortedChildren(hash: Bytes -> Oid, es: seq<Entry>, d: Path) returns (cs: seq<Child>)
    requires ValidEntries(es)
    ensures cs == SortTreeEntries(Children(hash, es, d))
    ensures StrictlySorted(SortKey, cs)
    ensures forall c | c in cs :: IsChild(hash, es, d, c) && ValidName(c.name)
  {
    var all := Children(hash, es, d);
    cs := SortTreeEntries(all);
    ChildKeysDistinct(hash, es, d);
    SortIsStrict(SortKey, all);
    forall c | c in cs
      ensures IsChild(hash, es, d, c) && ValidName(c.name)
    {
      SortMember(SortKey, all, c);
      InChildren(hash, es, d, c);
    }
  }

  /** Reading a directory's object yields its canonical children. */
  lemma LsTreeReads(hash: Bytes -> Oid, objects: map<Oid, Bytes>, es: seq<Entry>, d: Path, depth: nat,
                    cs: seq<Child>, rows: seq<Listed>)
    requires ValidEntries(es) && Genuine(hash, objects, es) && IsDir(es, d) && depth > 0
    requires cs == SortTreeEntries(Children(hash, es, d)) && ValidChildren(cs)
    requires ReadsItems(objects, Items(cs), depth - 1, rows)
    ensures Reads(objects, TreeId(hash, es, d), depth, rows)
  {
    FrameDecodes("tree", Payload(cs));
    PayloadRoundTrip(cs);
  }

  lemma {:induction false} ChildrenListing(
      hash: Bytes -> Oid, objects: map<Oid, Bytes>, es: seq<Entry>, d: Path, cs: seq<Child>, depth: nat)
    returns (rows: seq<Listed>)
    requires ValidEntries(es) && Genuine(hash, objects, es)
    requires depth >= Room(es, d)
    requires StrictlySorted(SortKey, cs)
    requires forall c | c in cs :: IsChild(hash, es, d, c) && ValidName(c.name)
    ensures ReadsItems(objects, Items(cs), depth, rows)
    ensures StrictlySorted(RowKey, rows)
    ensures forall r :: r in rows <==> exists c | c in cs :: RowOf(es, d, c, r)
    decreases depth, 2, |cs|
  {
    if cs == [] {
      assert Items(cs) == [];
      rows := [];
    } else {
      var c, rest := cs[0], cs[1..];
      assert cs == [c] + rest;
      var here := ChildListing(hash, objects, es, d, c, depth);
      var later := ChildrenListing(hash, objects, es, d, rest, depth);
      rows := here + later;
      ReadsItemsCons(objects, cs, depth, here, later);
      forall i, j | 0 <= i < j < |rows|
        ensures LexLess(RowKey(rows[i]), RowKey(rows[j]))
      {
        if i < |here| <= j {
          assert rows[i] in here && rows[j] in later;
          var c2 :| c2 in rest && RowOf(es, d, c2, rows[j]);
          SiblingRowsOrdered(es, d, c, c2, rows[i], rows[j]);
        }
      }
    }
  }

  /** A common prefix keeps rows in order. */
  lemma PrefixedOrdered(name: Bytes, inner: seq<Listed>)
    requires StrictlySorted(RowKey, inner)
    ensures StrictlySorted(RowKey, Prefixed(name, inner))
  {
    var rows := Prefixed(name, inner);
    forall i, j | 0 <= i < j < |rows|
      ensures LexLess(RowKey(rows[i]), RowKey(rows[j]))
    {
      LexCommonPrefix(name + [SLASH], inner[i].path, inner[j].path);
      assert LexLess(RowKey(inner[i]), RowKey(inner[j]));
    }
  }

  lemma ChildRoom(es: seq<Entry>, d: Path, name: string)
    requires exists e | e in es :: Below(e, d) && e.path[|d|] == name
    ensures IsDir(es, d + [name]) && Room(es, d + [name]) < Room(es, d)
  {
    var sub := d + [name];
    var e0 :| e0 in es && Below(e0, d) && e0.path[|d|] == name;
    assert e0.path[..|sub|] == sub;
    MaxLenBounds(es, e0);
  }

  lemma {:induction false} ChildListing(
      hash: Bytes -> Oid, objects: map<Oid, Bytes>, es: seq<Entry>, d: Path, c: Child, depth: nat)
    returns (rows: seq<Listed>)
    requires ValidEntries(es) && Genuine(hash, objects, es)
    requires depth >= Room(es, d)
    requires IsChild(hash, es, d, c) && ValidName(c.name)
    ensures ReadsItem(objects, ItemOf(c), depth, rows)
    ensures StrictlySorted(RowKey, rows)
    ensures forall r :: r in rows <==> RowOf(es, d, c, r)
    decreases depth, 2, 0
  {
    if !c.mode.Directory? {
      rows := [Listed(Utf8(c.name), c.mode, c.sha)];
    } else {
      ChildRoom(es, d, c.name);
      var inner := DirectoryListing(hash, objects, es, d + [c.name], depth);
      rows := Prefixed(Utf8(c.name), inner);
      PrefixedOrdered(Utf8(c.name), inner);
      forall r
        ensures r in rows <==> RowOf(es, d, c, r)
      {
        SubdirectoryRows(es, d, c, inner, r);
      }
    }
  }

  /** A row one level further up. */
  lemma RowOneUp(e: Entry, d: Path, name: string)
    requires |d| + 1 < |e.path| && e.path[..|d| + 1] == d + [name]
    ensures Below(e, d) && e.path[|d|] == name
    ensures Row(e, |d|).path == Utf8(name) + [SLASH] + Row(e, |d| + 1).path
    ensures Row(e, |d|) == Row(e, |d| + 1).(path := Row(e, |d|).path)
  {
    assert e.path[..|d|] == e.path[..|d| + 1][..|d|] == d && e.path[|d|] == e.path[..|d| + 1][|d|];
    assert e.path[|d|..] == [name] + e.path[|d| + 1..];
    PathBytesCons(name, e.path[|d| + 1..]);
  }

  lemma SubdirectoryRows(es: seq<Entry>, d: Path, c: Child, inner: seq<Listed>, r: Listed)
    requires c.mode.Directory?
    requires forall x :: x in inner <==> RowBelow(es, d + [c.name], x)
    ensures r in Prefixed(Utf8(c.name), inner) <==> RowOf(es, d, c, r)
  {
    var sub, rows := d + [c.name], Prefixed(Utf8(c.name), inner);
    if r in rows {
      var i :| 0 <= i < |rows| && rows[i] == r;
      assert inner[i] in inner;
      var e :| e in es && |sub| < |e.path| && e.path[..|sub|] == sub && inner[i] == Row(e, |sub|);
      RowOneUp(e, d, c.name);
      assert r == Row(e, |d|);
    }
    if RowOf(es, d, c, r) {
      var e :| e in es && Below(e, d) && e.path[|d|] == c.name && r == Row(e, |d|);
      assert e.path[..|sub|] == sub;
      RowOneUp(e, d, c.name);
      assert RowBelow(es, sub, Row(e, |sub|));
      var i :| 0 <= i < |inner| && inner[i] == Row(e, |sub|);
      assert rows[i] == r;
    }
  }

  // ---------------------------------------------------------------- main results

  function EntryKey(e: Entry): Bytes { PathBytes(e.path) }

  /** The listing a tree must have: the entries sorted by the bytes of their paths. */
  function Listing(es: seq<Entry>): seq<Listed> {
    var sorted := SortOn(EntryKey, es);
    seq(|sorted|, i requires 0 <= i < |sorted| => Row(sorted[i], 0))
  }

  lemma PathBytesInjective(p: Path, q: Path)
    requires ValidPath(p) && ValidPath(q)
    requires PathBytes(p) == PathBytes(q)
    ensures p == q
  {
    Utf8Injective(Join(p, '/'), Join(q, '/'));
    assert forall i | 0 <= i < |p| :: p[i] in p;
    assert forall i | 0 <= i < |q| :: q[i] in q;
    assert Free(p, '/') && Free(q, '/');
    SplitJoin(p, '/');
    SplitJoin(q, '/');
  }

  lemma EntryKeysDistinct(es: seq<Entry>)
    requires ValidEntries(es)
    ensures DistinctKeys(EntryKey, es)
  {
    forall i, j | 0 <= i < j < |es|
      ensures EntryKey(es[i]) != EntryKey(es[j])
    {
      assert es[i] in es && es[j] in es;
      if EntryKey(es[i]) == EntryKey(es[j]) {
        PathBytesInjective(es[i].path, es[j].path);
      }
    }
  }

  lemma ListingProperties(es: seq<Entry>)
    requires ValidEntries(es)
    ensures StrictlySorted(RowKey, Listing(es))
    ensures forall r :: r in Listing(es) <==> RowBelow(es, [], r)
  {
    var sorted := SortOn(EntryKey, es);
    EntryKeysDistinct(es);
    SortIsStrict(EntryKey, es);
    var rows := Listing(es);
    forall i | 0 <= i < |sorted|
      ensures RowKey(rows[i]) == EntryKey(sorted[i])
    {
      assert sorted[i].path[0..] == sorted[i].path;
    }
    forall r
      ensures r in rows <==> RowBelow(es, [], r)
    {
      if r in rows {
        var i :| 0 <= i < |rows| && rows[i] == r;
        SortMember(EntryKey, es, sorted[i]);
        assert sorted[i] in es && ValidPath(sorted[i].path);
        assert r == Row(sorted[i], 0);
      }
      if RowBelow(es, [], r) {
        var e :| e in es && 0 < |e.path| && r == Row(e, 0);
        SortMember(EntryKey, es, e);
        var i :| 0 <= i < |sorted| && sorted[i] == e;
        assert rows[i] == r;
      }
    }
  }

  /**
   * Flattening the root through the store gives back exactly the entries it was built from,
   * in strictly increasing byte order of the full path.
   */
  lemma TreeReadsBack(hash: Bytes -> Oid, objects: map<Oid, Bytes>, es: seq<Entry>, depth: nat)
    requires ValidEntries(es) && Genuine(hash, objects, es)
    requires depth > MaxLen(es)
    ensures LsTree(objects, TreeId(hash, es, []), depth) == Some(Listing(es))
  {
    var rows := DirectoryListing(hash, objects, es, [], depth);
    ListingProperties(es);
    StrictlySortedUnique(RowKey, rows, Listing(es));
  }

  /** The listing determines the entries. */
  lemma ListingDeterminesEntries(a: seq<Entry>, b: seq<Entry>, e: Entry)
    requires ValidEntries(a) && ValidEntries(b) && Listing(a) == Listing(b)
    requires e in a
    ensures e in b
  {
    ListingProperties(a);
    ListingProperties(b);
    assert ValidPath(e.path);
    assert RowBelow(a, [], Row(e, 0));
    assert Row(e, 0) in Listing(b);
    var f :| f in b && 0 < |f.path| && Row(e, 0) == Row(f, 0);
    assert f.path[0..] == f.path && e.path[0..] == e.path;
    assert ValidPath(f.path);
    PathBytesInjective(e.path, f.path);
    assert e == f;
  }

  // ---------------------------------------------------------------- tree identity

  ghost predicate SameEntries(a: seq<Entry>, b: seq<Entry>) { forall e :: e in a <==> e in b }

  /** The hash tells the given frames apart. */
  ghost predicate CollisionFree(hash: Bytes -> Oid, frames: set<Bytes>) {
    forall x, y | x in frames && y in frames && hash(x) == hash(y) :: x == y
  }

  ghost function Dirs(es: seq<Entry>): set<Path> {
    {[]} + set i, k | 0 <= i < |es| && 0 <= k < |es[i].path| :: es[i].path[..k]
  }

  lemma DirsAre(es: seq<Entry>, d: Path)
    ensures d in Dirs(es) <==> IsDir(es, d)
  {
    if IsDir(es, d) && d != [] {
      var e :| e in es && |d| < |e.path| && e.path[..|d|] == d;
      var i :| 0 <= i < |es| && es[i] == e;
      assert d == es[i].path[..|d|];
    }
  }

  /** Every tree object of the candidate tree. */
  ghost function TreeFrames(hash: Bytes -> Oid, es: seq<Entry>): set<Bytes> {
    set d | d in Dirs(es) :: TreeFrame(hash, es, d)
  }

  lemma {:induction false} MaxLenOfSame(a: seq<Entry>, b: seq<Entry>)
    requires SameEntries(a, b)
    ensures MaxLen(a) <= MaxLen(b)
  {
    if a != [] && MaxLen(a) > 0 {
      var e := LongestEntry(a);
      MaxLenBounds(b, e);
    }
  }

  lemma {:induction false} LongestEntry(es: seq<Entry>) returns (e: Entry)
    requires MaxLen(es) > 0
    ensures e in es && |e.path| == MaxLen(es)
  {
    var init, last := es[..|es| - 1], es[|es| - 1];
    assert es == init + [last];
    if MaxLen(init) < |last.path| {
      e := last;
    } else {
      e := LongestEntry(init);
    }
  }

  /** The order of the entries does not influence any tree id. */
  lemma {:induction false} OrderIrrelevant(hash: Bytes -> Oid, a: seq<Entry>, b: seq<Entry>, d: Path)
    requires ValidEntries(a) && ValidEntries(b) && SameEntries(a, b)
    ensures TreeFrame(hash, a, d) == TreeFrame(hash, b, d)
    decreases Room(a, d)
  {
    MaxLenOfSame(a, b);
    MaxLenOfSame(b, a);
    var x, y := Children(hash, a, d), Children(hash, b, d);
    forall c
      ensures c in x <==> c in y
    {
      InChildren(hash, a, d, c);
      InChildren(hash, b, d, c);
      if c.mode.Directory? && exists e | e in a :: Below(e, d) && e.path[|d|] == c.name {
        var e :| e in a && Below(e, d) && e.path[|d|] == c.name;
        MaxLenBounds(a, e);
        OrderIrrelevant(hash, a, b, d + [c.name]);
      }
    }
    ChildKeysDistinct(hash, a, d);
    ChildKeysDistinct(hash, b, d);
    SortIsStrict(SortKey, x);
    SortIsStrict(SortKey, y);
    forall c
      ensures c in SortOn(SortKey, x) <==> c in SortOn(SortKey, y)
    {
      SortMember(SortKey, x, c);
      SortMember(SortKey, y, c);
    }
    StrictlySortedUnique(SortKey, SortOn(SortKey, x), SortOn(SortKey, y));
  }

  /**
   * Tree identity: two entry lists get the same tree id exactly when they hold the same
   * entries, provided the hash tells the tree objects of the two trees apart.
   */
  lemma SameIdIffSameEntries(hash: Bytes -> Oid, a: seq<Entry>, b: seq<Entry>)
    requires ValidEntries(a) && ValidEntries(b)
    requires CollisionFree(hash, TreeFrames(hash, a) + TreeFrames(hash, b))
    ensures TreeId(hash, a, []) == TreeId(hash, b, []) <==> SameEntries(a, b)
  {
    if SameEntries(a, b) {
      OrderIrrelevant(hash, a, b, []);
    }
    if TreeId(hash, a, []) == TreeId(hash, b, []) {
      var frames := TreeFrames(hash, a) + TreeFrames(hash, b);
      var store := StoreOf(hash, frames);
      StoreIsGenuine(hash, frames, a);
      StoreIsGenuine(hash, frames, b);
      var depth := MaxLen(a) + MaxLen(b) + 1;
      TreeReadsBack(hash, store, a, depth);
      TreeReadsBack(hash, store, b, depth);
      forall e
        ensures e in a <==> e in b
      {
        if e in a { ListingDeterminesEntries(a, b, e); }
        if e in b { ListingDeterminesEntries(b, a, e); }
      }
    }
  }

  ghost function StoreOf(hash: Bytes -> Oid, frames: set<Bytes>): map<Oid, Bytes>
    requires CollisionFree(hash, frames)
  {
    map f | f in frames :: hash(f) := f
  }

  lemma StoreIsGenuine(hash: Bytes -> Oid, frames: set<Bytes>, es: seq<Entry>)
    requires CollisionFree(hash, frames) && TreeFrames(hash, es) <= frames
    ensures Genuine(hash, StoreOf(hash, frames), es)
  {
    forall d | IsDir(es, d)
      ensures TreeFrame(hash, es, d) in frames
    {
      DirsAre(es, d);
    }
  }
}
