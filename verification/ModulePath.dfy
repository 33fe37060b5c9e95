/** Where a repository-local plugin module lies. */
module ModulePath {
  import opened InputSnapshot
  import opened Text

  predicate Plain(segment: string) { segment != "" && segment != "." && segment != ".." }

  /** The segments left after `.` and `..` are worked off; `None` as soon as a `..` leaves the root. */
  function Work(segments: seq<string>, kept: seq<string>): Option<seq<string>> {
    if segments == [] then Some(kept)
    else if segments[0] == ".." then
      if kept == [] then None else Work(segments[1..], kept[..|kept| - 1])
    else Work(segments[1..], if Plain(segments[0]) then kept + [segments[0]] else kept)
  }

  function SegmentsOf(spec: string): seq<string> {
    Split(ToPosix(if "./" <= spec then spec[2..] else spec), '/')
  }

  predicate IsLocal(spec: string) { "./" <= spec || "../" <= spec }

  method NormalizeRepoModule(spec: string) returns (r: Option<string>)
    ensures r == if !IsLocal(spec) then None
                 else match Work(SegmentsOf(spec), []) case None => None case Some(kept) => Some(Join(kept, '/'))
  {
    if !("./" <= spec) && !("../" <= spec) { return None; }
    var segments := SegmentsOf(spec);
    var kept: seq<string> := [];
    for i := 0 to |segments|
      invariant Work(segments[i..], kept) == Work(segments, [])
    {
      var segment := segments[i];
      assert segments[i..][1..] == segments[i + 1..];
      if segment == ".." {
        if |kept| == 0 { return None; }
        kept := kept[..|kept| - 1];
      } else if segment != "." && |segment| > 0 {
        kept := kept + [segment];
      }
    }
    return Some(Join(kept, '/'));
  }

  // ---------------------------------------------------------------- walking a path

  /** Where a path leads from an absolute directory, the way a POSIX system resolves it. */
  function Resolve(at: seq<string>, segments: seq<string>): seq<string>
    decreases |segments|
  {
    if segments == [] then at
    else if segments[0] == ".." then Resolve(if at == [] then [] else at[..|at| - 1], segments[1..])
    else Resolve(if Plain(segments[0]) then at + [segments[0]] else at, segments[1..])
  }

  /** How far below its start a path is after `n` segments; negative when it is above. */
  function Level(segments: seq<string>, n: nat): int
    requires n <= |segments|
  {
    if n == 0 then 0
    else Level(segments, n - 1) + (if segments[n - 1] == ".." then -1 else if Plain(segments[n - 1]) then 1 else 0)
  }

  ghost predicate AllPlain(segments: seq<string>) { forall k | 0 <= k < |segments| :: Plain(segments[k]) }

  lemma {:induction false} WorkResolves(root: seq<string>, segments: seq<string>, kept: seq<string>)
    requires AllPlain(kept) && Work(segments, kept).Some?
    ensures AllPlain(Work(segments, kept).value)
    ensures Resolve(root + kept, segments) == root + Work(segments, kept).value
    decreases |segments|
  {
    if segments != [] {
      if segments[0] == ".." {
        assert (root + kept)[..|root + kept| - 1] == root + kept[..|kept| - 1];
        WorkResolves(root, segments[1..], kept[..|kept| - 1]);
      } else if Plain(segments[0]) {
        assert root + kept + [segments[0]] == root + (kept + [segments[0]]);
        WorkResolves(root, segments[1..], kept + [segments[0]]);
      } else {
        WorkResolves(root, segments[1..], kept);
      }
    }
  }

  lemma {:induction false} LevelShift(segments: seq<string>, n: nat)
    requires 0 < |segments| && n < |segments|
    ensures Level(segments, n + 1) == Level(segments, 1) + Level(segments[1..], n)
  {
    if n > 0 {
      LevelShift(segments, n - 1);
    } else {
      assert Level(segments, 0) == 0;
    }
  }

  lemma {:induction false} WorkFails(segments: seq<string>, kept: seq<string>)
    ensures Work(segments, kept) == None <==> exists n: nat :: n <= |segments| && |kept| + Level(segments, n) < 0
    decreases |segments|
  {
    if segments != [] {
      var tail := segments[1..];
      var first := Level(segments, 1);
      assert Level(segments, 0) == 0;
      forall n: nat | n <= |tail|
        ensures Level(segments, n + 1) == first + Level(tail, n)
      {
        LevelShift(segments, n);
      }
      if segments[0] == ".." && kept == [] {
        assert |kept| + Level(segments, 1) < 0;
      } else {
        var kept' := if segments[0] == ".." then kept[..|kept| - 1]
                     else if Plain(segments[0]) then kept + [segments[0]] else kept;
        assert |kept'| == |kept| + first;
        assert Work(segments, kept) == Work(tail, kept');
        WorkFails(tail, kept');
        if n: nat :| n <= |tail| && |kept'| + Level(tail, n) < 0 {
          assert |kept| + Level(segments, n + 1) < 0;
        }
        if m: nat :| m <= |segments| && |kept| + Level(segments, m) < 0 {
          assert Level(segments, m - 1 + 1) == first + Level(tail, m - 1);
          assert |kept'| + Level(tail, m - 1) < 0;
        }
      }
    } else {
      assert Level(segments, 0) == 0;
    }
  }

  /** `t` is `s` with `/` for every `\`. */
  ghost predicate Slashed(s: string, t: string) {
    |t| == |s| && forall i | 0 <= i < |s| :: t[i] == if s[i] == '\\' then '/' else s[i]
  }

  lemma LeadingDot(segments: seq<string>, n: nat)
    requires n <= |segments|
    ensures Level(["."] + segments, n + 1) == Level(segments, n)
  {
    var all := ["."] + segments;
    assert Level(all, 0) == 0 && Level(segments, 0) == 0;
    if n > 0 {
      LevelShift(all, n);
      assert all[1..] == segments;
    }
  }

  /** A leading `./` makes no difference to where a specifier leads. */
  lemma DotIsNoStep(root: seq<string>, segments: seq<string>)
    ensures Resolve(root, ["."] + segments) == Resolve(root, segments)
    ensures (exists n: nat :: n <= |segments| + 1 && Level(["."] + segments, n) < 0) <==>
              exists n: nat :: n <= |segments| && Level(segments, n) < 0
  {
    var all := ["."] + segments;
    assert all[1..] == segments;
    forall n: nat | n <= |segments|
      ensures Level(all, n + 1) == Level(segments, n)
    {
      LeadingDot(segments, n);
    }
    assert Level(all, 0) == 0;
    if n: nat :| n <= |segments| + 1 && Level(all, n) < 0 {
      assert Level(all, n - 1 + 1) == Level(segments, n - 1);
    }
  }

  lemma SegmentsAre(spec: string, t: string)
    requires Slashed(spec, t)
    ensures Split(t, '/') == if "./" <= spec then ["."] + SegmentsOf(spec) else SegmentsOf(spec)
  {
    if "./" <= spec {
      assert spec[..2] == "./";
      assert t == "." + ['/'] + ToPosix(spec[2..]);
      SplitHead(".", ToPosix(spec[2..]), '/');
    } else {
      assert t == ToPosix(spec);
    }
  }

  /**
   * A local specifier, read with `/` for `\`, is turned down exactly when its walk leaves the repository at some point.
   * Otherwise the result has only plain segments and names the very place the specifier leads to from the repository
   * root.
   */
  lemma NormalizedNamesTheSamePlace(root: seq<string>, spec: string, t: string)
    requires IsLocal(spec) && Slashed(spec, t)
    ensures var segments, kept := Split(t, '/'), Work(SegmentsOf(spec), []);
      && (kept == None <==> exists n: nat :: n <= |segments| && Level(segments, n) < 0)
      && (kept.Some? ==> AllPlain(kept.value) && Resolve(root, segments) == root + kept.value)
  {
    var segments := SegmentsOf(spec);
    WorkFails(segments, []);
    SegmentsAre(spec, t);
    DotIsNoStep(root, segments);
    assert forall n: nat | n <= |segments| :: 0 + Level(segments, n) == Level(segments, n);
    if Work(segments, []).Some? {
      assert root + [] == root;
      WorkResolves(root, segments, []);
    }
  }
}
