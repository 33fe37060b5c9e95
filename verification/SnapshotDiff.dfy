/** The discovery-stability check: two inventories compared path by path. */
module SnapshotDiff {
  import opened InputSnapshot
  import opened Sorting
  import opened Text

  /** `new Map(entries.map(e => [e.path, e]))`: a later entry of a path wins. */
  function ByPath(entries: seq<FileEntry>): (m: map<string, FileEntry>)
    ensures forall p | p in m :: m[p] in entries && m[p].path == p
    ensures forall e | e in entries :: e.path in m
  {
    if entries == [] then map[]
    else
      var front, last := entries[..|entries| - 1], entries[|entries| - 1];
      assert entries == front + [last];
      ByPath(front)[last.path := last]
  }

  function Removed(p: string): string { "removed during discovery: " + p }

  function Altered(p: string): string { "changed during discovery: " + p }

  function Added(p: string): string { "added during discovery: " + p }

  /** What is said about one path of the first inventory. */
  function About(m: map<string, FileEntry>, m': map<string, FileEntry>, p: string): Option<string>
    requires p in m
  {
    if p !in m' then Some(Removed(p)) else if m'[p] != m[p] then Some(Altered(p)) else None
  }

  ghost predicate Difference(m: map<string, FileEntry>, m': map<string, FileEntry>, text: string) {
    || (exists p :: p in m && About(m, m', p) == Some(text))
    || (exists p :: p in m' && p !in m && text == Added(p))
  }

  ghost predicate Keyed(m: map<string, FileEntry>) { forall p | p in m :: m[p].path == p }

  /** The text about one path is about no other path. */
  lemma TextNamesPath(m: map<string, FileEntry>, m': map<string, FileEntry>, p: string, q: string)
    requires p in m && q in m && About(m, m', p).Some? && About(m, m', p) == About(m, m', q)
    ensures p == q
  {
    var text := About(m, m', p).value;
    var n := |Removed("")|;
    assert |Altered("")| == n && text[0] == if p in m' then 'c' else 'r';
    assert text[n..] == p && text[n..] == q;
  }

  lemma AddedNamesPath(m: map<string, FileEntry>, m': map<string, FileEntry>, p: string, q: string)
    ensures Added(p) == Added(q) ==> p == q
    ensures q in m ==> About(m, m', q) != Some(Added(p))
  {
    assert Added(p)[|Added("")|..] == p && Added(q)[|Added("")|..] == q;
    assert Added(p)[0] == 'a' && Removed(q)[0] == 'r' && Altered(q)[0] == 'c';
  }

  lemma NewIsDistinct(texts: seq<string>, text: string)
    requires DistinctKeys(Order, texts) && text !in texts
    ensures DistinctKeys(Order, texts + [text])
  {
    forall i | 0 <= i < |texts|
      ensures Order(texts[i]) != Order(text)
    {
      if Order(texts[i]) == Order(text) {
        UnitsInjective(texts[i], text);
      }
    }
  }

  lemma {:induction false} JoinIsDistinct(a: seq<string>, b: seq<string>)
    requires DistinctKeys(Order, a) && DistinctKeys(Order, b)
    requires forall t | t in b :: t !in a
    ensures DistinctKeys(Order, a + b)
  {
    if b == [] {
      assert a + b == a;
    } else {
      var front, last := b[..|b| - 1], b[|b| - 1];
      JoinIsDistinct(a, front);
      assert last !in front by {
        assert forall i | 0 <= i < |front| :: Order(b[i]) != Order(b[|b| - 1]);
      }
      NewIsDistinct(a + front, last);
      assert a + front + [last] == a + b;
    }
  }

  method RemovedOrAltered(m: map<string, FileEntry>, m': map<string, FileEntry>) returns (texts: seq<string>)
    requires Keyed(m) && Keyed(m')
    ensures forall t :: t in texts <==> exists p :: p in m && About(m, m', p) == Some(t)
    ensures DistinctKeys(Order, texts)
  {
    texts := [];
    var left := m.Keys;
    while left != {}
      invariant left <= m.Keys && DistinctKeys(Order, texts)
      invariant forall t :: t in texts <==> exists p :: p in m && p !in left && About(m, m', p) == Some(t)
      decreases left
    {
      var p :| p in left;
      NewText(m, m', texts, left, p);
      left := left - {p};
      if p !in m' {
        texts := texts + [Removed(p)];
      } else if m'[p].digest != m[p].digest || m'[p].kind != m[p].kind {
        texts := texts + [Altered(p)];
      }
    }
  }

  /** What is said about a path not looked at yet has not been said. */
  lemma NewText(m: map<string, FileEntry>, m': map<string, FileEntry>, texts: seq<string>, left: set<string>, p: string)
    requires p in left && left <= m.Keys && DistinctKeys(Order, texts)
    requires forall t :: t in texts <==> exists q :: q in m && q !in left && About(m, m', q) == Some(t)
    ensures About(m, m', p).Some? ==> DistinctKeys(Order, texts + [About(m, m', p).value])
  {
    if About(m, m', p).Some? {
      var text := About(m, m', p).value;
      if text in texts {
        var q :| q in m && q !in left && About(m, m', q) == Some(text);
        TextNamesPath(m, m', p, q);
      }
      NewIsDistinct(texts, text);
    }
  }

  lemma NewAddition(m: map<string, FileEntry>, m': map<string, FileEntry>, texts: seq<string>, left: set<string>,
                    p: string)
    requires p in left && DistinctKeys(Order, texts)
    requires forall t :: t in texts <==> exists q :: q in m' && q !in left && q !in m && t == Added(q)
    ensures DistinctKeys(Order, texts + [Added(p)])
  {
    if Added(p) in texts {
      var q :| q in m' && q !in left && q !in m && Added(p) == Added(q);
      AddedNamesPath(m, m', p, q);
    }
    NewIsDistinct(texts, Added(p));
  }

  method AddedPaths(m: map<string, FileEntry>, m': map<string, FileEntry>) returns (texts: seq<string>)
    ensures forall t :: t in texts <==> exists p :: p in m' && p !in m && t == Added(p)
    ensures DistinctKeys(Order, texts)
  {
    texts := [];
    var left := m'.Keys;
    while left != {}
      invariant left <= m'.Keys && DistinctKeys(Order, texts)
      invariant forall t :: t in texts <==> exists p :: p in m' && p !in left && p !in m && t == Added(p)
      decreases left
    {
      var p :| p in left;
      NewAddition(m, m', texts, left, p);
      left := left - {p};
      if p !in m { texts := texts + [Added(p)]; }
    }
  }

  method DiffInputFiles(before: seq<FileEntry>, after: seq<FileEntry>) returns (differences: seq<string>)
    ensures StrictlySorted(Order, differences)
    ensures forall t :: t in differences <==> Difference(ByPath(before), ByPath(after), t)
  {
    var m, m' := ByPath(before), ByPath(after);
    var gone := RemovedOrAltered(m, m');
    var come := AddedPaths(m, m');
    forall t | t in come
      ensures t !in gone
    {
      var p :| p in m' && p !in m && t == Added(p);
      forall q | q in m
        ensures About(m, m', q) != Some(t)
      {
        AddedNamesPath(m, m', p, q);
      }
    }
    JoinIsDistinct(gone, come);
    SortIsSorted(Order, gone + come);
    SortIsStrict(Order, gone + come);
    differences := SortOn(Order, gone + come);
  }

  /** The check stays silent exactly when both inventories hold the same entry for every path. */
  lemma SilentMeansSame(before: seq<FileEntry>, after: seq<FileEntry>)
    ensures (forall t :: !Difference(ByPath(before), ByPath(after), t)) <==> ByPath(before) == ByPath(after)
  {
    var m, m' := ByPath(before), ByPath(after);
    if forall t :: !Difference(m, m', t) {
      forall p
        ensures p in m <==> p in m'
        ensures p in m ==> m[p] == m'[p]
      {
        if p in m && About(m, m', p).Some? {
          assert Difference(m, m', About(m, m', p).value);
        }
        if p in m' && p !in m {
          assert Difference(m, m', Added(p));
        }
      }
    }
  }

  /** For inventories with one entry a path, in path order, silence means that they are the same list. */
  lemma SilentMeansEqual(before: seq<FileEntry>, after: seq<FileEntry>)
    requires StrictlySorted(PathKey, before) && StrictlySorted(PathKey, after)
    ensures (forall t :: !Difference(ByPath(before), ByPath(after), t)) <==> before == after
  {
    SilentMeansSame(before, after);
    if ByPath(before) == ByPath(after) {
      forall e
        ensures e in before <==> e in after
      {
        OnePerPath(before, e);
        OnePerPath(after, e);
      }
      StrictlySortedUnique(PathKey, before, after);
    }
  }

  lemma OnePerPath(entries: seq<FileEntry>, e: FileEntry)
    requires StrictlySorted(PathKey, entries)
    ensures e in entries <==> e.path in ByPath(entries) && ByPath(entries)[e.path] == e
  {
    if e in entries {
      var f := ByPath(entries)[e.path];
      var i :| 0 <= i < |entries| && entries[i] == e;
      var j :| 0 <= j < |entries| && entries[j] == f;
      LexTrichotomy(PathKey(e), PathKey(f));
    }
  }

  // ---------------------------------------------------------------- what is reported

  /** The entry that counts for a path: the last one. */
  ghost predicate StandsFor(entries: seq<FileEntry>, k: nat, p: string) {
    && k < |entries| && entries[k].path == p
    && forall later | k < later < |entries| :: entries[later].path != p
  }

  ghost predicate Lacks(entries: seq<FileEntry>, p: string) { forall k | 0 <= k < |entries| :: entries[k].path != p }

  lemma {:induction false} LastStands(entries: seq<FileEntry>, p: string) returns (k: nat)
    requires p in ByPath(entries)
    ensures StandsFor(entries, k, p) && ByPath(entries)[p] == entries[k]
  {
    var front, last := entries[..|entries| - 1], entries[|entries| - 1];
    assert entries == front + [last];
    if last.path == p {
      k := |entries| - 1;
    } else {
      k := LastStands(front, p);
    }
  }

  lemma LastIs(entries: seq<FileEntry>, p: string)
    ensures p !in ByPath(entries) <==> Lacks(entries, p)
    ensures forall k: nat | StandsFor(entries, k, p) :: p in ByPath(entries) && ByPath(entries)[p] == entries[k]
    ensures p in ByPath(entries) ==> exists k: nat :: StandsFor(entries, k, p)
  {
    assert forall k | 0 <= k < |entries| :: entries[k] in entries;
    if p in ByPath(entries) {
      var k := LastStands(entries, p);
      assert forall other: nat | StandsFor(entries, other, p) :: other == k;
    }
  }

  /** The two inventories differ on a path in this way. */
  ghost predicate Reports(before: seq<FileEntry>, after: seq<FileEntry>, p: string, text: string) {
    || (!Lacks(before, p) && Lacks(after, p) && text == "removed during discovery: " + p)
    || (Lacks(before, p) && !Lacks(after, p) && text == "added during discovery: " + p)
    || (text == "changed during discovery: " + p
        && exists i: nat, j: nat :: StandsFor(before, i, p) && StandsFor(after, j, p)
             && (before[i].kind != after[j].kind || before[i].digest != after[j].digest))
  }

  lemma ReportsIs(before: seq<FileEntry>, after: seq<FileEntry>, p: string, text: string)
    ensures var m, m' := ByPath(before), ByPath(after);
      Reports(before, after, p, text) <==>
        (p in m && About(m, m', p) == Some(text)) || (p in m' && p !in m && text == Added(p))
  {
    LastIs(before, p);
    LastIs(after, p);
  }

  /** What is reported: each path that is gone, new, or held by its last entries with another kind or digest. */
  lemma WhatIsReported(before: seq<FileEntry>, after: seq<FileEntry>, text: string)
    ensures Difference(ByPath(before), ByPath(after), text) <==> exists p :: Reports(before, after, p, text)
  {
    forall p
      ensures var m, m' := ByPath(before), ByPath(after);
        Reports(before, after, p, text) <==>
          (p in m && About(m, m', p) == Some(text)) || (p in m' && p !in m && text == Added(p))
    {
      ReportsIs(before, after, p, text);
    }
  }
}
