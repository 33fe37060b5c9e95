/** Stable sorting by a key, as `Array.prototype.sort` does with a comparator on that key. */
module Sorting {
  import opened Text

  /** Inserts before the first element whose key is not smaller. */
  function InsertOn<T>(key: T -> seq<int>, x: T, s: seq<T>): seq<T> {
    if s == [] then [x]
    else if LexLess(key(s[0]), key(x)) then [s[0]] + InsertOn(key, x, s[1..])
    else [x] + s
  }

  function SortOn<T>(key: T -> seq<int>, s: seq<T>): seq<T> {
    if s == [] then [] else InsertOn(key, s[0], SortOn(key, s[1..]))
  }

  ghost predicate Sorted<T>(key: T -> seq<int>, s: seq<T>) {
    forall i, j | 0 <= i < j < |s| :: !LexLess(key(s[j]), key(s[i]))
  }

  ghost predicate StrictlySorted<T>(key: T -> seq<int>, s: seq<T>) {
    forall i, j | 0 <= i < j < |s| :: LexLess(key(s[i]), key(s[j]))
  }

  /** No two positions carry the same key. */
  ghost predicate DistinctKeys<T>(key: T -> seq<int>, s: seq<T>) {
    forall i, j | 0 <= i < j < |s| :: key(s[i]) != key(s[j])
  }

  lemma {:induction false} InsertPermutes<T>(key: T -> seq<int>, x: T, s: seq<T>)
    ensures multiset(InsertOn(key, x, s)) == multiset(s) + multiset{x}
    decreases |s|
  {
    if s == [] {
    } else if LexLess(key(s[0]), key(x)) {
      InsertPermutes(key, x, s[1..]);
      assert s == [s[0]] + s[1..];
    } else {
      assert multiset([x] + s) == multiset{x} + multiset(s);
    }
  }

  lemma {:induction false} InsertSorts<T>(key: T -> seq<int>, x: T, s: seq<T>)
    requires Sorted(key, s)
    ensures Sorted(key, InsertOn(key, x, s))
    decreases |s|
  {
    var r := InsertOn(key, x, s);
    if s != [] && LexLess(key(s[0]), key(x)) {
      var tail := InsertOn(key, x, s[1..]);
      InsertSorts(key, x, s[1..]);
      InsertPermutes(key, x, s[1..]);
      forall j | 0 <= j < |tail|
        ensures !LexLess(key(tail[j]), key(s[0]))
      {
        assert tail[j] in multiset(tail);
        LexTrichotomy(key(s[0]), key(x));
        assert tail[j] == x || tail[j] in s[1..];
      }
      assert r == [s[0]] + tail;
    } else if s != [] {
      forall j | 0 <= j < |s|
        ensures !LexLess(key(s[j]), key(x))
      {
        if LexLess(key(s[j]), key(x)) && j > 0 {
          LexTrichotomy(key(s[0]), key(s[j]));
          if key(s[0]) != key(s[j]) {
            LexTransitive(key(s[0]), key(s[j]), key(x));
          }
        }
      }
      assert r == [x] + s;
    }
  }

  /** Sorting rearranges and orders: it neither drops, invents nor duplicates an element. */
  lemma {:induction false} SortIsSorted<T>(key: T -> seq<int>, s: seq<T>)
    ensures multiset(SortOn(key, s)) == multiset(s)
    ensures |SortOn(key, s)| == |s|
    ensures Sorted(key, SortOn(key, s))
    ensures forall x :: x in SortOn(key, s) <==> x in s
    decreases |s|
  {
    if s != [] {
      SortIsSorted(key, s[1..]);
      InsertPermutes(key, s[0], SortOn(key, s[1..]));
      InsertSorts(key, s[0], SortOn(key, s[1..]));
      assert s == [s[0]] + s[1..];
    }
    var r := SortOn(key, s);
    assert |r| == |multiset(r)| == |multiset(s)| == |s|;
    forall x
      ensures x in r <==> x in s
    {
      assert x in r <==> x in multiset(r);
      assert x in s <==> x in multiset(s);
    }
  }

  lemma SortMember<T>(key: T -> seq<int>, s: seq<T>, x: T)
    ensures x in SortOn(key, s) <==> x in s
  {
    SortIsSorted(key, s);
  }

  lemma {:induction false} DistinctCount<T>(key: T -> seq<int>, s: seq<T>, x: T)
    requires DistinctKeys(key, s)
    ensures multiset(s)[x] <= 1
    decreases |s|
  {
    if s != [] {
      DistinctCount(key, s[1..], x);
      assert s == [s[0]] + s[1..];
      assert s[0] !in s[1..] by {
        assert forall j | 0 <= j < |s[1..]| :: key(s[1..][j]) == key(s[j + 1]);
      }
    }
  }

  /** With distinct keys the result is strictly increasing. */
  lemma SortIsStrict<T>(key: T -> seq<int>, s: seq<T>)
    requires DistinctKeys(key, s)
    ensures StrictlySorted(key, SortOn(key, s))
  {
    var r := SortOn(key, s);
    SortIsSorted(key, s);
    forall i, j | 0 <= i < j < |r|
      ensures LexLess(key(r[i]), key(r[j]))
    {
      LexTrichotomy(key(r[i]), key(r[j]));
      DistinctCount(key, s, r[i]);
      assert r[i] == r[j] ==> multiset(r)[r[i]] >= 2 by {
        if r[i] == r[j] { RepeatedCount(r, i, j); }
      }
      SortMember(key, s, r[i]);
      SortMember(key, s, r[j]);
      var a :| 0 <= a < |s| && s[a] == r[i];
      var b :| 0 <= b < |s| && s[b] == r[j];
      assert a != b;
    }
  }

  lemma RepeatedCount<T>(r: seq<T>, i: nat, j: nat)
    requires i < j < |r| && r[i] == r[j]
    ensures multiset(r)[r[i]] >= 2
  {
    assert r == r[..j] + [r[j]] + r[j + 1..];
    assert r[..j][i] == r[i];
    assert r[i] in multiset(r[..j]);
  }

  /** A strictly sorted list is determined by its elements. */
  lemma {:induction false} StrictlySortedUnique<T>(key: T -> seq<int>, a: seq<T>, b: seq<T>)
    requires StrictlySorted(key, a) && StrictlySorted(key, b)
    requires forall x :: x in a <==> x in b
    ensures a == b
    decreases |a|
  {
    assert b != [] ==> b[0] in b;
    if a != [] {
      assert a[0] in a;
      var i :| 0 <= i < |b| && b[i] == a[0];
      var j :| 0 <= j < |a| && a[j] == b[0];
      LexTrichotomy(key(b[0]), key(a[0]));
      assert i == 0;
      forall x
        ensures x in a[1..] <==> x in b[1..]
      {
        if x in a[1..] {
          var k :| 1 <= k < |a| && a[k] == x;
          LexTrichotomy(key(a[0]), key(x));
          assert x in b && x != b[0];
        }
        if x in b[1..] {
          var k :| 1 <= k < |b| && b[k] == x;
          LexTrichotomy(key(b[0]), key(x));
          assert x in a && x != a[0];
        }
      }
      StrictlySortedUnique(key, a[1..], b[1..]);
      assert a == [a[0]] + a[1..] && b == [b[0]] + b[1..];
    }
  }

  lemma {:induction false} InsertedAt<T>(key: T -> seq<int>, x: T, s: seq<T>) returns (n: nat)
    ensures n <= |s| && InsertOn(key, x, s) == s[..n] + [x] + s[n..]
    ensures forall i | 0 <= i < n :: LexLess(key(s[i]), key(x))
    ensures n < |s| ==> !LexLess(key(s[n]), key(x))
  {
    if s == [] || !LexLess(key(s[0]), key(x)) {
      n := 0;
    } else {
      var m := InsertedAt(key, x, s[1..]);
      n := m + 1;
      assert s[..n] == [s[0]] + s[1..][..m] && s[n..] == s[1..][m..];
      assert forall i | 1 <= i < n :: s[i] == s[1..][i - 1];
    }
  }

  /** Position `i` comes before position `j` in a stable sort by the key. */
  ghost predicate Before<T>(key: T -> seq<int>, s: seq<T>, i: nat, j: nat)
    requires i < |s| && j < |s|
  {
    LexLess(key(s[i]), key(s[j])) || (key(s[i]) == key(s[j]) && i < j)
  }

  ghost predicate IsStableOrder<T>(key: T -> seq<int>, s: seq<T>, order: seq<nat>, r: seq<T>) {
    && |order| == |s| == |r|
    && (forall k | 0 <= k < |s| :: order[k] < |s| && r[k] == s[order[k]])
    && (forall a, b | 0 <= a < b < |s| :: Before(key, s, order[a], order[b]))
    && (forall i | 0 <= i < |s| :: i in order)
  }

  /** The sort is stable: elements with equal keys keep their order. */
  lemma {:induction false} SortIsStable<T>(key: T -> seq<int>, s: seq<T>) returns (order: seq<nat>)
    ensures IsStableOrder(key, s, order, SortOn(key, s))
    decreases |s|
  {
    if s == [] {
      order := [];
    } else {
      var rest, sorted := s[1..], SortOn(key, s[1..]);
      var inner := SortIsStable(key, rest);
      var n := InsertedAt(key, s[0], sorted);
      order := StableInsert(key, s, inner, sorted, n);
    }
  }

  /** The order with a new first element put at place `n`. */
  ghost predicate Shifted(inner: seq<nat>, n: nat, order: seq<nat>) {
    && n <= |inner| && |order| == |inner| + 1 && order[n] == 0
    && (forall k | 0 <= k < n :: order[k] == inner[k] + 1)
    && (forall k | n < k < |order| :: order[k] == inner[k - 1] + 1)
  }

  lemma StableInsert<T>(key: T -> seq<int>, s: seq<T>, inner: seq<nat>, sorted: seq<T>, n: nat)
    returns (order: seq<nat>)
    requires s != [] && IsStableOrder(key, s[1..], inner, sorted) && n <= |sorted|
    requires forall i | 0 <= i < n :: LexLess(key(sorted[i]), key(s[0]))
    requires n < |sorted| ==> !LexLess(key(sorted[n]), key(s[0]))
    ensures IsStableOrder(key, s, order, sorted[..n] + [s[0]] + sorted[n..])
  {
    order := seq(|inner| + 1, k requires 0 <= k <= |inner| =>
      if k < n then inner[k] + 1 else if k == n then 0 else inner[k - 1] + 1);
    ShiftedValues(s, inner, sorted, n, order);
    ShiftedCovers(inner, n, order);
    forall a, b | 0 <= a < b < |s|
      ensures Before(key, s, order[a], order[b])
    {
      ShiftedBefore(key, s, inner, sorted, n, order, a, b);
    }
  }

  lemma ShiftedValues<T>(s: seq<T>, inner: seq<nat>, sorted: seq<T>, n: nat, order: seq<nat>)
    requires s != [] && |inner| == |sorted| == |s| - 1 && Shifted(inner, n, order)
    requires forall k | 0 <= k < |inner| :: inner[k] < |s| - 1 && sorted[k] == s[1..][inner[k]]
    ensures forall k | 0 <= k < |s| :: order[k] < |s| && (sorted[..n] + [s[0]] + sorted[n..])[k] == s[order[k]]
  {
  }

  lemma ShiftedCovers(inner: seq<nat>, n: nat, order: seq<nat>)
    requires Shifted(inner, n, order) && forall i | 0 <= i < |inner| :: i in inner
    ensures forall i | 0 <= i < |order| :: i in order
  {
    forall i | 0 < i < |order|
      ensures i in order
    {
      assert i - 1 in inner;
      var k :| 0 <= k < |inner| && inner[k] == i - 1;
      assert order[if k < n then k else k + 1] == i;
    }
  }

  lemma ShiftedBefore<T>(key: T -> seq<int>, s: seq<T>, inner: seq<nat>, sorted: seq<T>, n: nat, order: seq<nat>,
                         a: nat, b: nat)
    requires s != [] && IsStableOrder(key, s[1..], inner, sorted) && Shifted(inner, n, order) && a < b < |s|
    requires forall i | 0 <= i < n :: LexLess(key(sorted[i]), key(s[0]))
    requires n < |sorted| ==> !LexLess(key(sorted[n]), key(s[0]))
    ensures order[a] < |s| && order[b] < |s| && Before(key, s, order[a], order[b])
  {
    if a == n {
      BehindInserted(key, s, inner, sorted, n, b - 1);
    } else if b == n {
      assert sorted[a] == s[1..][inner[a]] == s[order[a]];
    } else {
      var x, y := if a < n then a else a - 1, if b < n then b else b - 1;
      assert Before(key, s[1..], inner[x], inner[y]);
    }
  }

  lemma BehindInserted<T>(key: T -> seq<int>, s: seq<T>, inner: seq<nat>, sorted: seq<T>, n: nat, m: nat)
    requires s != [] && IsStableOrder(key, s[1..], inner, sorted) && n <= m < |sorted|
    requires !LexLess(key(sorted[n]), key(s[0]))
    ensures Before(key, s, 0, inner[m] + 1)
  {
    var x, y, z := key(s[0]), key(sorted[n]), key(sorted[m]);
    LexTrichotomy(x, y);
    if n < m {
      assert Before(key, s[1..], inner[n], inner[m]);
      if LexLess(x, y) && LexLess(y, z) {
        LexTransitive(x, y, z);
      }
    }
  }
}
