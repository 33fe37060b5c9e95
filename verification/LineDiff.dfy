/** The line diff printed when a mapping sidecar changes: a longest-common-subsequence script. */
module LineDiff {
  import opened Text

  type Line = string

  // ---------------------------------------------------------------- specification

  /** Length of a longest common subsequence. */
  function Lcs(a: seq<Line>, b: seq<Line>): nat
    decreases |a| + |b|
  {
    if a == [] || b == [] then 0
    else if a[0] == b[0] then Lcs(a[1..], b[1..]) + 1
    else Max(Lcs(a[1..], b), Lcs(a, b[1..]))
  }

  function Max(x: nat, y: nat): nat { if x >= y then x else y }

  ghost predicate Subsequence<T>(c: seq<T>, s: seq<T>)
    decreases |s|
  {
    c == [] || (s != [] && ((c[0] == s[0] && Subsequence(c[1..], s[1..])) || Subsequence(c, s[1..])))
  }

  /** The printed script, line by line. On a tie the removal is printed first. */
  function Script(a: seq<Line>, b: seq<Line>): seq<Line>
    decreases |a| + |b|
  {
    if a == [] then Marked("+ ", b)
    else if b == [] then Marked("- ", a)
    else if a[0] == b[0] then ["  " + a[0]] + Script(a[1..], b[1..])
    else if Lcs(a[1..], b) >= Lcs(a, b[1..]) then ["- " + a[0]] + Script(a[1..], b)
    else ["+ " + b[0]] + Script(a, b[1..])
  }

  function Marked(mark: string, lines: seq<Line>): seq<Line> {
    if lines == [] then [] else [mark + lines[0]] + Marked(mark, lines[1..])
  }

  /** The lines of `script` that carry one of `marks`, with the mark removed. */
  function Select(script: seq<Line>, marks: set<string>): seq<Line> {
    if script == [] then []
    else
      var rest := Select(script[1..], marks);
      if |script[0]| >= 2 && script[0][..2] in marks then [script[0][2..]] + rest else rest
  }

  const CONTEXT := "  "
  const REMOVED := "- "
  const ADDED := "+ "

  function Context(script: seq<Line>): seq<Line> { Select(script, {CONTEXT}) }
  function Olds(script: seq<Line>): seq<Line> { Select(script, {CONTEXT, REMOVED}) }
  function News(script: seq<Line>): seq<Line> { Select(script, {CONTEXT, ADDED}) }
  function Edits(script: seq<Line>): seq<Line> { Select(script, {REMOVED, ADDED}) }

  /** A script that turns `a` into `b`: its kept and removed lines spell `a`, its kept and added lines spell `b`. */
  ghost predicate Transforms(script: seq<Line>, a: seq<Line>, b: seq<Line>) {
    Olds(script) == a && News(script) == b
  }

  // ---------------------------------------------------------------- common subsequences

  lemma {:induction false} SubsequenceDrop<T>(c: seq<T>, s: seq<T>)
    requires c != [] && Subsequence(c, s)
    ensures Subsequence(c[1..], s)
    decreases |s|
  {
    if c[0] == s[0] && Subsequence(c[1..], s[1..]) {
      if c[1..] != [] { SubsequenceSkip(c[1..], s); }
    } else {
      SubsequenceDrop(c, s[1..]);
      SubsequenceSkip(c[1..], s);
    }
  }

  lemma SubsequenceSkip<T>(c: seq<T>, s: seq<T>)
    requires s != [] && Subsequence(c, s[1..])
    ensures Subsequence(c, s)
  {
  }

  /** No common subsequence is longer than `Lcs`. */
  lemma {:induction false} LcsUpperBound(c: seq<Line>, a: seq<Line>, b: seq<Line>)
    requires Subsequence(c, a) && Subsequence(c, b)
    ensures |c| <= Lcs(a, b)
    decreases |a| + |b|
  {
    if c != [] {
      if a[0] == b[0] {
        if c[0] == a[0] {
          SubsequenceTail(c, a);
          SubsequenceTail(c, b);
          LcsUpperBound(c[1..], a[1..], b[1..]);
        } else {
          LcsUpperBound(c, a[1..], b[1..]);
        }
      } else if c[0] == a[0] {
        LcsUpperBound(c, a, b[1..]);
      } else {
        LcsUpperBound(c, a[1..], b);
      }
    }
  }

  /** A match with the first element can always be taken at once. */
  lemma SubsequenceTail<T>(c: seq<T>, s: seq<T>)
    requires c != [] && s != [] && c[0] == s[0] && Subsequence(c, s)
    ensures Subsequence(c[1..], s[1..])
  {
    if !Subsequence(c[1..], s[1..]) {
      SubsequenceDrop(c, s[1..]);
    }
  }

  // ---------------------------------------------------------------- properties of scripts

  lemma {:induction false} MarkedSelect(mark: string, lines: seq<Line>, marks: set<string>)
    requires |mark| == 2
    ensures Select(Marked(mark, lines), marks) == if mark in marks then lines else []
    decreases |lines|
  {
    if lines != [] {
      MarkedSelect(mark, lines[1..], marks);
      var m := Marked(mark, lines);
      assert m[0][..2] == mark && m[0][2..] == lines[0] && m[1..] == Marked(mark, lines[1..]);
      assert lines == [lines[0]] + lines[1..];
    }
  }

  lemma ConsSelect(mark: string, line: Line, rest: seq<Line>, marks: set<string>)
    requires |mark| == 2
    ensures Select([mark + line] + rest, marks)
         == (if mark in marks then [line] else []) + Select(rest, marks)
  {
    var s := [mark + line] + rest;
    assert s[0][..2] == mark && s[0][2..] == line && s[1..] == rest;
  }

  lemma ConsSelectAll(mark: string, line: Line, rest: seq<Line>)
    requires |mark| == 2
    ensures Olds([mark + line] + rest) == (if mark in {CONTEXT, REMOVED} then [line] else []) + Olds(rest)
    ensures News([mark + line] + rest) == (if mark in {CONTEXT, ADDED} then [line] else []) + News(rest)
    ensures Context([mark + line] + rest) == (if mark in {CONTEXT} then [line] else []) + Context(rest)
    ensures Edits([mark + line] + rest) == (if mark in {REMOVED, ADDED} then [line] else []) + Edits(rest)
  {
    ConsSelect(mark, line, rest, {CONTEXT, REMOVED});
    ConsSelect(mark, line, rest, {CONTEXT, ADDED});
    ConsSelect(mark, line, rest, {CONTEXT});
    ConsSelect(mark, line, rest, {REMOVED, ADDED});
  }

  /** The script spells both files and keeps as many lines as a longest common subsequence has. */
  lemma {:induction false} ScriptIsLossless(a: seq<Line>, b: seq<Line>)
    ensures Transforms(Script(a, b), a, b)
    ensures |Context(Script(a, b))| == Lcs(a, b)
    ensures |Edits(Script(a, b))| == |a| + |b| - 2 * Lcs(a, b)
    decreases |a| + |b|
  {
    if a == [] || b == [] {
      var mark, lines := if a == [] then ADDED else REMOVED, if a == [] then b else a;
      MarkedSelect(mark, lines, {CONTEXT, REMOVED});
      MarkedSelect(mark, lines, {CONTEXT, ADDED});
      MarkedSelect(mark, lines, {CONTEXT});
      MarkedSelect(mark, lines, {REMOVED, ADDED});
    } else {
      assert a == [a[0]] + a[1..] && b == [b[0]] + b[1..];
      if a[0] == b[0] {
        ScriptIsLossless(a[1..], b[1..]);
        ConsSelectAll(CONTEXT, a[0], Script(a[1..], b[1..]));
      } else if Lcs(a[1..], b) >= Lcs(a, b[1..]) {
        ScriptIsLossless(a[1..], b);
        ConsSelectAll(REMOVED, a[0], Script(a[1..], b));
      } else {
        ScriptIsLossless(a, b[1..]);
        ConsSelectAll(ADDED, b[0], Script(a, b[1..]));
      }
    }
  }

  /** In any script the kept lines form a subsequence of either side, and the counts add up. */
  lemma {:induction false} ContextIsCommon(script: seq<Line>)
    ensures Subsequence(Context(script), Olds(script))
    ensures Subsequence(Context(script), News(script))
    ensures |Olds(script)| + |News(script)| == 2 * |Context(script)| + |Edits(script)|
    decreases |script|
  {
    if script != [] {
      ContextIsCommon(script[1..]);
      if |script[0]| >= 2 {
        var mark, line := script[0][..2], script[0][2..];
        assert script[0] == mark + line;
        assert script == [mark + line] + script[1..];
        ConsSelectAll(mark, line, script[1..]);
        var c, o, n := Context(script), Olds(script), News(script);
        if mark == CONTEXT {
          assert c[1..] == Context(script[1..]) && o[1..] == Olds(script[1..]) && n[1..] == News(script[1..]);
        } else {
          assert mark == REMOVED ==> o[1..] == Olds(script[1..]);
          assert mark == ADDED ==> n[1..] == News(script[1..]);
        }
      }
    }
  }

  /** No script that turns `a` into `b` has fewer added and removed lines, nor more kept lines. */
  lemma ScriptIsOptimal(a: seq<Line>, b: seq<Line>, other: seq<Line>)
    requires Transforms(other, a, b)
    ensures |Edits(Script(a, b))| <= |Edits(other)|
    ensures |Context(other)| <= |Context(Script(a, b))|
  {
    ScriptIsLossless(a, b);
    ContextIsCommon(other);
    LcsUpperBound(Context(other), a, b);
  }

  /** Diffing a file against itself prints only context. */
  lemma {:induction false} ScriptOfEqual(a: seq<Line>, b: seq<Line>)
    ensures Edits(Script(a, b)) == [] <==> a == b
  {
    ScriptIsLossless(a, b);
    var s := Script(a, b);
    if Edits(s) == [] {
      NoEditsMeansEqual(s);
    }
    if a == b {
      LcsUpperBound(a, a, a) by { SubsequenceRefl(a); }
    }
  }

  lemma {:induction false} NoEditsMeansEqual(s: seq<Line>)
    requires Edits(s) == []
    ensures Olds(s) == News(s)
    decreases |s|
  {
    if s != [] {
      if |s[0]| >= 2 {
        assert s[0] == s[0][..2] + s[0][2..];
        ConsSelectAll(s[0][..2], s[0][2..], s[1..]);
        assert s == [s[0][..2] + s[0][2..]] + s[1..];
      }
      NoEditsMeansEqual(s[1..]);
    }
  }

  lemma {:induction false} SubsequenceRefl<T>(s: seq<T>)
    ensures Subsequence(s, s)
    decreases |s|
  {
    if s != [] { SubsequenceRefl(s[1..]); }
  }

  // ---------------------------------------------------------------- the order of edits

  ghost predicate Carries(line: Line, mark: string) { mark <= line }

  /** Somewhere an added line is directly followed by a removed one. */
  ghost predicate AddsBeforeRemoving(script: seq<Line>) {
    exists k :: 0 <= k < |script| - 1 && Carries(script[k], ADDED) && Carries(script[k + 1], REMOVED)
  }

  lemma {:induction false} LcsOfTail(a: seq<Line>, b: seq<Line>)
    requires b != []
    ensures Lcs(a, b[1..]) <= Lcs(a, b)
    decreases |a| + |b|
  {
    if a != [] && a[0] == b[0] {
      LcsAtMostOne(a, b[1..]);
    }
  }

  lemma {:induction false} LcsAtMostOne(a: seq<Line>, b: seq<Line>)
    requires a != []
    ensures Lcs(a, b) <= Lcs(a[1..], b) + 1
    decreases |a| + |b|
  {
    if b != [] {
      LcsOfTail(a[1..], b);
      if a[0] != b[0] {
        LcsAtMostOne(a, b[1..]);
      }
    }
  }

  lemma MarkCarries(mark: string, line: Line, other: string)
    requires |mark| == |other|
    ensures Carries(mark + line, other) <==> mark == other
  {
    assert (mark + line)[..|mark|] == mark;
  }

  lemma ConsAddsNone(line: Line, rest: seq<Line>)
    requires !AddsBeforeRemoving(rest) && (Carries(line, ADDED) && rest != [] ==> !Carries(rest[0], REMOVED))
    ensures !AddsBeforeRemoving([line] + rest)
  {
    var script := [line] + rest;
    forall k | 0 <= k < |script| - 1 && Carries(script[k], ADDED)
      ensures !Carries(script[k + 1], REMOVED)
    {
      if k > 0 {
        assert script[k] == rest[k - 1] && script[k + 1] == rest[k];
      }
    }
  }

  lemma {:induction false} MarkedInOrder(mark: string, lines: seq<Line>)
    requires mark == ADDED || mark == REMOVED
    ensures !AddsBeforeRemoving(Marked(mark, lines))
    ensures lines != [] ==> Marked(mark, lines)[0][0] == mark[0]
    decreases |lines|
  {
    if lines != [] {
      MarkedInOrder(mark, lines[1..]);
      ConsAddsNone(mark + lines[0], Marked(mark, lines[1..]));
    }
  }

  /** What an added line is printed for: leaving out the old line would lose a kept one, so none is removed next. */
  lemma NoRemovalBehindAddition(a: seq<Line>, b: seq<Line>)
    requires a != [] && b != [] && Lcs(a[1..], b) < Lcs(a, b[1..])
    ensures Script(a, b[1..]) != [] ==> !Carries(Script(a, b[1..])[0], REMOVED)
  {
    var c := b[1..];
    LcsOfTail(a[1..], b);
    assert c != [] && Lcs(a[1..], c) < Lcs(a, c);
    if a[0] == c[0] {
      MarkCarries(CONTEXT, a[0], REMOVED);
      assert Script(a, c)[0] == CONTEXT + a[0];
    } else {
      assert Lcs(a, c) == Max(Lcs(a[1..], c), Lcs(a, c[1..]));
      MarkCarries(ADDED, c[0], REMOVED);
      assert Script(a, c)[0] == ADDED + c[0];
    }
  }

  /** Removals come first: in a printed script no removed line directly follows an added one. */
  lemma {:induction false} RemovalsComeFirst(a: seq<Line>, b: seq<Line>)
    ensures !AddsBeforeRemoving(Script(a, b))
    decreases |a| + |b|
  {
    if a == [] {
      MarkedInOrder(ADDED, b);
    } else if b == [] {
      MarkedInOrder(REMOVED, a);
    } else if a[0] == b[0] {
      RemovalsComeFirst(a[1..], b[1..]);
      MarkCarries(CONTEXT, a[0], ADDED);
      ConsAddsNone(CONTEXT + a[0], Script(a[1..], b[1..]));
    } else if Lcs(a[1..], b) >= Lcs(a, b[1..]) {
      RemovalsComeFirst(a[1..], b);
      MarkCarries(REMOVED, a[0], ADDED);
      ConsAddsNone(REMOVED + a[0], Script(a[1..], b));
    } else {
      RemovalsComeFirst(a, b[1..]);
      NoRemovalBehindAddition(a, b);
      ConsAddsNone(ADDED + b[0], Script(a, b[1..]));
    }
  }

  // ---------------------------------------------------------------- the algorithm

  function OldLines(before: string): seq<Line> { if |before| == 0 then [] else Split(before, '\n') }

  lemma LcsCell(a: seq<Line>, b: seq<Line>, i: nat, j: nat)
    requires i < |a| && j < |b|
    ensures Lcs(a[i..], b[j..]) == if a[i] == b[j] then Lcs(a[i + 1..], b[j + 1..]) + 1
                                   else Max(Lcs(a[i + 1..], b[j..]), Lcs(a[i..], b[j + 1..]))
  {
    assert a[i..][1..] == a[i + 1..] && b[j..][1..] == b[j + 1..];
  }

  ghost predicate CellIs(a: seq<Line>, b: seq<Line>, r: nat, c: nat, value: nat)
    requires r <= |a| && c <= |b|
  {
    value == Lcs(a[r..], b[c..])
  }

  /** Fills the table from the last row and column to the first. */
  method FillTable(a: seq<Line>, b: seq<Line>) returns (table: array2<nat>)
    ensures fresh(table) && table.Length0 == |a| + 1 && table.Length1 == |b| + 1
    ensures forall i, j | 0 <= i <= |a| && 0 <= j <= |b| :: CellIs(a, b, i, j, table[i, j])
  {
    table := new nat[|a| + 1, |b| + 1]((i, j) => 0);
    var i := |a| - 1;
    while i >= 0
      invariant -1 <= i < |a|
      invariant forall r, c | i < r <= |a| && 0 <= c <= |b| :: CellIs(a, b, r, c, table[r, c])
      invariant forall r | 0 <= r <= i :: table[r, |b|] == 0
    {
      var j := |b| - 1;
      while j >= 0
        invariant -1 <= j < |b|
        invariant forall r, c | i < r <= |a| && 0 <= c <= |b| :: CellIs(a, b, r, c, table[r, c])
        invariant forall c | j < c <= |b| :: CellIs(a, b, i, c, table[i, c])
        invariant forall r | 0 <= r <= i :: table[r, |b|] == 0
      {
        LcsCell(a, b, i, j);
        assert CellIs(a, b, i + 1, j + 1, table[i + 1, j + 1]);
        assert CellIs(a, b, i + 1, j, table[i + 1, j]) && CellIs(a, b, i, j + 1, table[i, j + 1]);
        table[i, j] := if a[i] == b[j] then table[i + 1, j + 1] + 1
                       else Max(table[i + 1, j], table[i, j + 1]);
        j := j - 1;
      }
      i := i - 1;
    }
  }

  /** Where the trace stands: `lines` printed, `rest` still to print. */
  ghost predicate Tracing(a: seq<Line>, b: seq<Line>, i: int, j: int, lines: seq<Line>) {
    && 0 <= i <= |a| && 0 <= j <= |b|
    && lines + Script(a[i..], b[j..]) == Script(a, b)
  }

  lemma KeepStep(a: seq<Line>, b: seq<Line>, i: int, j: int, lines: seq<Line>)
    requires Tracing(a, b, i, j, lines) && i < |a| && j < |b| && a[i] == b[j]
    ensures Tracing(a, b, i + 1, j + 1, lines + ["  " + a[i]])
  {
    assert a[i..][1..] == a[i + 1..] && b[j..][1..] == b[j + 1..];
  }

  lemma RemoveStep(a: seq<Line>, b: seq<Line>, i: int, j: int, lines: seq<Line>)
    requires Tracing(a, b, i, j, lines) && i < |a|
    requires j < |b| ==> a[i] != b[j] && Lcs(a[i + 1..], b[j..]) >= Lcs(a[i..], b[j + 1..])
    ensures Tracing(a, b, i + 1, j, lines + ["- " + a[i]])
  {
    assert a[i..][1..] == a[i + 1..];
    if j < |b| {
      assert b[j..][1..] == b[j + 1..];
    } else if i + 1 == |a| {
      assert Marked("- ", a[i..]) == ["- " + a[i]];
    }
  }

  lemma AddStep(a: seq<Line>, b: seq<Line>, i: int, j: int, lines: seq<Line>)
    requires Tracing(a, b, i, j, lines) && j < |b|
    requires i < |a| ==> a[i] != b[j] && Lcs(a[i + 1..], b[j..]) < Lcs(a[i..], b[j + 1..])
    ensures Tracing(a, b, i, j + 1, lines + ["+ " + b[j]])
  {
    assert b[j..][1..] == b[j + 1..];
    if i < |a| {
      assert a[i..][1..] == a[i + 1..];
    }
  }

  lemma TraceEnds(a: seq<Line>, b: seq<Line>, lines: seq<Line>)
    requires Tracing(a, b, |a|, |b|, lines)
    ensures lines == Script(a, b)
  {
  }

  /** Walks the finished table greedily from its first cell. */
  method Trace(a: seq<Line>, b: seq<Line>, table: array2<nat>) returns (lines: seq<Line>)
    requires table.Length0 == |a| + 1 && table.Length1 == |b| + 1
    requires forall i, j | 0 <= i <= |a| && 0 <= j <= |b| :: CellIs(a, b, i, j, table[i, j])
    ensures lines == Script(a, b)
  {
    lines := [];
    var i, j := 0, 0;
    while i < |a| && j < |b|
      invariant Tracing(a, b, i, j, lines)
      decreases |a| - i + |b| - j
    {
      ghost var below, right := table[i + 1, j], table[i, j + 1];
      assert CellIs(a, b, i + 1, j, below) && CellIs(a, b, i, j + 1, right);
      if a[i] == b[j] {
        KeepStep(a, b, i, j, lines);
        lines := lines + ["  " + a[i]];
        i, j := i + 1, j + 1;
      } else if table[i + 1, j] >= table[i, j + 1] {
        RemoveStep(a, b, i, j, lines);
        lines := lines + ["- " + a[i]];
        i := i + 1;
      } else {
        AddStep(a, b, i, j, lines);
        lines := lines + ["+ " + b[j]];
        j := j + 1;
      }
    }
    while i < |a|
      invariant Tracing(a, b, i, j, lines) && (i < |a| ==> j == |b|)
    {
      RemoveStep(a, b, i, j, lines);
      lines := lines + ["- " + a[i]];
      i := i + 1;
    }
    while j < |b|
      invariant Tracing(a, b, i, j, lines) && i == |a|
    {
      AddStep(a, b, i, j, lines);
      lines := lines + ["+ " + b[j]];
      j := j + 1;
    }
    TraceEnds(a, b, lines);
  }

  method DiffLines(before: string, after: string) returns (lines: seq<Line>)
    ensures lines == Script(OldLines(before), Split(after, '\n'))
  {
    var a := OldLines(before);
    var b := Split(after, '\n');
    var table := FillTable(a, b);
    lines := Trace(a, b, table);
  }

  /**
   * At the level of the two texts: the printed lines spell the old and the new file exactly, with no old line when
   * there is no old text.
   */
  lemma DiffSpellsBothTexts(before: string, after: string)
    ensures
      var lines := Script(OldLines(before), Split(after, '\n'));
      Join(Olds(lines), '\n') == before && Join(News(lines), '\n') == after && (before == "" <==> Olds(lines) == [])
  {
    ScriptIsLossless(OldLines(before), Split(after, '\n'));
    JoinSplit(before, '\n');
    JoinSplit(after, '\n');
  }
}
