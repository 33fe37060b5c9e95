/** Filtering and counting, as `filter` and a counting loop do it. */
module Lists {
  function Keep<T>(keep: T -> bool, s: seq<T>): (r: seq<T>)
    ensures |r| <= |s|
  {
    if s == [] then []
    else
      var front := Keep(keep, s[..|s| - 1]);
      if keep(s[|s| - 1]) then front + [s[|s| - 1]] else front
  }

  function CountIf<T>(p: T -> bool, s: seq<T>): nat { |Keep(p, s)| }

  lemma {:induction false} KeepAll<T>(keep: T -> bool, s: seq<T>)
    requires forall x | x in s :: keep(x)
    ensures Keep(keep, s) == s
  {
    if s != [] {
      KeepAll(keep, s[..|s| - 1]);
    }
  }

  lemma {:induction false} KeepNone<T>(keep: T -> bool, s: seq<T>)
    requires forall x | x in s :: !keep(x)
    ensures Keep(keep, s) == []
  {
    if s != [] {
      KeepNone(keep, s[..|s| - 1]);
    }
  }

  lemma {:induction false} SameKeep<T>(p: T -> bool, q: T -> bool, s: seq<T>)
    requires forall x | x in s :: p(x) == q(x)
    ensures Keep(p, s) == Keep(q, s)
  {
    if s != [] {
      SameKeep(p, q, s[..|s| - 1]);
    }
  }

  lemma {:induction false} KeepSplits<T>(p: T -> bool, q: T -> bool, s: seq<T>)
    requires forall x | x in s :: q(x) == !p(x)
    ensures |Keep(p, s)| + |Keep(q, s)| == |s|
    ensures multiset(Keep(p, s)) + multiset(Keep(q, s)) == multiset(s)
  {
    if s != [] {
      var front, last := s[..|s| - 1], s[|s| - 1];
      KeepSplits(p, q, front);
      assert s == front + [last];
      assert multiset(s) == multiset(front) + multiset{last};
      if p(last) {
        assert Keep(p, s) == Keep(p, front) + [last] && Keep(q, s) == Keep(q, front);
      } else {
        assert Keep(p, s) == Keep(p, front) && Keep(q, s) == Keep(q, front) + [last];
      }
    }
  }

  lemma {:induction false} KeepMembers<T>(p: T -> bool, s: seq<T>)
    ensures forall x :: x in Keep(p, s) <==> x in s && p(x)
  {
    if s != [] {
      KeepMembers(p, s[..|s| - 1]);
      assert s == s[..|s| - 1] + [s[|s| - 1]];
    }
  }

  /** Keeping by one test and then by another is keeping by both. */
  lemma {:induction false} KeepTwice<T>(p: T -> bool, q: T -> bool, both: T -> bool, s: seq<T>)
    requires forall x | x in s :: both(x) == (p(x) && q(x))
    ensures Keep(q, Keep(p, s)) == Keep(both, s)
  {
    if s != [] {
      var front, last := s[..|s| - 1], s[|s| - 1];
      KeepTwice(p, q, both, front);
      if p(last) {
        assert Keep(p, s)[..|Keep(p, s)| - 1] == Keep(p, front);
      }
    }
  }

  lemma {:induction false} KeepFewer<T>(p: T -> bool, q: T -> bool, s: seq<T>)
    requires forall x | x in s && p(x) :: q(x)
    ensures multiset(Keep(p, s)) <= multiset(Keep(q, s))
  {
    if s != [] {
      KeepFewer(p, q, s[..|s| - 1]);
    }
  }

  lemma KeepSnoc<T>(p: T -> bool, s: seq<T>, x: T)
    ensures Keep(p, s + [x]) == if p(x) then Keep(p, s) + [x] else Keep(p, s)
  {
    assert (s + [x])[..|s|] == s;
  }

  function Positions<T>(p: T -> bool, s: seq<T>): set<nat> { set i: nat | i < |s| && p(s[i]) }

  lemma {:induction false} CountIsPositions<T>(p: T -> bool, s: seq<T>)
    ensures CountIf(p, s) == |Positions(p, s)|
  {
    var held := Positions(p, s);
    if s == [] {
      assert held == {};
    } else {
      var n := |s| - 1;
      var front := s[..n];
      CountIsPositions(p, front);
      assert held == Positions(p, front) + if p(s[n]) then {n} else {};
    }
  }

  ghost predicate Increasing(idx: seq<nat>) { forall i, j | 0 <= i < j < |idx| :: idx[i] < idx[j] }

  /** `r` is the elements of `s` at these positions, in order. */
  ghost predicate Picks<T>(s: seq<T>, idx: seq<nat>, r: seq<T>) {
    |idx| == |r| && Increasing(idx) && forall k | 0 <= k < |idx| :: idx[k] < |s| && r[k] == s[idx[k]]
  }

  lemma PicksMore<T>(front: seq<T>, x: T, idx: seq<nat>, r: seq<T>)
    requires Picks(front, idx, r)
    ensures Picks(front + [x], idx, r)
    ensures Picks(front + [x], idx + [|front|], r + [x])
  {
  }

  /** A filter picks exactly the positions that pass. */
  lemma {:induction false} KeepPicks<T>(p: T -> bool, s: seq<T>) returns (idx: seq<nat>)
    ensures Picks(s, idx, Keep(p, s))
    ensures forall i: nat | i < |s| :: i in idx <==> p(s[i])
  {
    if s == [] {
      idx := [];
    } else {
      var front, x := s[..|s| - 1], s[|s| - 1];
      var before := KeepPicks(p, front);
      assert s == front + [x];
      PicksMore(front, x, before, Keep(p, front));
      assert |front| !in before by {
        assert forall k | 0 <= k < |before| :: before[k] < |front|;
      }
      idx := if p(x) then before + [|front|] else before;
      assert forall i: nat | i < |front| :: s[i] == front[i];
    }
  }
}
