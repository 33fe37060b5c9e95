/** The lines an `evidence.exclude` edit looks for, described character by character. */
module ConfigSyntax {
  import opened Text
  import opened ConfigText
  import opened ConfigEdit

  // ---------------------------------------------------------------- single lines

  lemma {:induction false} TrimStartSkips(a: string, s: string)
    requires AllSpace(a) && (s == "" || !IsSpace(s[0]))
    ensures TrimStart(a + s) == s
  {
    if a == "" {
      assert a + s == s;
    } else {
      assert (a + s)[1..] == a[1..] + s;
      TrimStartSkips(a[1..], s);
    }
  }

  /** The line is blank or starts with more than `depth` white space characters. */
  ghost predicate Deeper(line: string, depth: nat) {
    AllSpace(line) || (|line| > depth && forall i | 0 <= i <= depth :: IsSpace(line[i]))
  }

  lemma DeeperIs(line: string, depth: nat)
    ensures Inside(line, depth) <==> Deeper(line, depth)
    ensures Blank(line) <==> AllSpace(line)
  {
    TrimIs(line);
    var a := TrimStartIs(line);
    var s := TrimStart(line);
    assert Depth(line) == |a|;
    assert s != "" ==> line[|a|] == s[0];
    assert s == "" ==> line == a;
  }

  /** The line is `key:` at this indent, with `rest` behind the colon. */
  ghost predicate KeyLine(line: string, key: string, indent: string, rest: string) {
    line == indent + key + ":" + rest && (rest == "" || rest[0] == ' ' || rest[0] == '\t')
  }

  ghost predicate IsKeyLine(line: string, key: string, indent: string) {
    exists rest :: KeyLine(line, key, indent, rest)
  }

  lemma KeyLineIs(line: string, key: string, indent: string)
    ensures Owns(line, key, indent) <==> IsKeyLine(line, key, indent)
    ensures forall rest | KeyLine(line, key, indent, rest) :: rest == line[|indent + key + ":"|..]
  {
    var prefix := indent + key + ":";
    if Owns(line, key, indent) {
      var rest := line[|prefix|..];
      assert line == prefix + rest;
      assert KeyLine(line, key, indent, rest);
    }
    forall rest | KeyLine(line, key, indent, rest)
      ensures rest == line[|prefix|..] && Owns(line, key, indent)
    {
      assert line == prefix + rest;
      assert rest != "" ==> line[|prefix|] == rest[0];
    }
  }

  /** A `#` behind white space starts a comment that runs to the end of the line. */
  ghost predicate Comments(rest: string, j: nat) {
    && 0 < j < |rest| && rest[j] == '#' && IsSpace(rest[j - 1])
    && forall k | j < k < |rest| :: rest[k] != '\n' && rest[k] != '\r' && rest[k] as int !in {0x2028, 0x2029}
  }

  lemma CommentsIs(rest: string, j: nat)
    requires j < |rest|
    ensures IsComment(rest, j) <==> Comments(rest, j)
  {
    var tail := rest[j + 1..];
    assert forall k | j < k < |rest| :: rest[k] == tail[k - j - 1];
    if IsComment(rest, j) {
      assert forall k | j < k < |rest| :: rest[k] in tail;
    }
  }

  /** What a key line holds: the text before the first comment, without white space at its ends. */
  ghost predicate Says(rest: string, value: string) {
    exists j: nat :: j <= |rest| && (j == |rest| || Comments(rest, j))
      && (forall i | 0 <= i < j :: !Comments(rest, i)) && TrimsTo(rest[..j], value)
  }

  lemma TrimsToOne(s: string, c: string, d: string)
    requires TrimsTo(s, c) && TrimsTo(s, d)
    ensures c == d
  {
    var a, b :| s == a + c + b && AllSpace(a) && AllSpace(b);
    var x, y :| s == x + d + y && AllSpace(x) && AllSpace(y);
    Ends(s, a, c, b);
    Ends(s, x, d, y);
    if c != "" && d != "" {
      assert |a| == |x| && |a| + |c| == |x| + |d|;
    }
  }

  /** Where the core of a text starts and ends. */
  lemma Ends(s: string, a: string, c: string, b: string)
    requires s == a + c + b && AllSpace(a) && AllSpace(b)
    requires c != "" ==> !IsSpace(c[0]) && !IsSpace(c[|c| - 1])
    ensures c == "" <==> AllSpace(s)
    ensures c == s[|a|..|a| + |c|]
    ensures forall i | 0 <= i < |s| && (i < |a| || i >= |a| + |c|) :: IsSpace(s[i])
    ensures c != "" ==> !IsSpace(s[|a|]) && !IsSpace(s[|a| + |c| - 1])
  {
    assert c != "" ==> s[|a|] == c[0] && s[|a| + |c| - 1] == c[|c| - 1];
  }

  lemma SaysIs(line: string, key: string, indent: string, rest: string)
    requires KeyLine(line, key, indent, rest)
    ensures forall value :: Says(rest, value) <==> value == ValueOf(line, key, indent)
  {
    KeyLineIs(line, key, indent);
    var j := CommentAt(rest, 0);
    forall i: nat | i < |rest|
      ensures IsComment(rest, i) <==> Comments(rest, i)
    {
      CommentsIs(rest, i);
    }
    TrimIs(rest[..j]);
    assert Says(rest, Trim(rest[..j]));
    forall value | Says(rest, value)
      ensures value == Trim(rest[..j])
    {
      var i: nat :| i <= |rest| && (i == |rest| || Comments(rest, i))
        && (forall k | 0 <= k < i :: !Comments(rest, k)) && TrimsTo(rest[..i], value);
      assert i == j;
      TrimsToOne(rest[..j], value, Trim(rest[..j]));
    }
  }

  /** An item: a dash behind white space only, and white space behind the dash. */
  ghost predicate ItemLine(line: string) {
    exists a, rest :: line == a + "-" + rest && AllSpace(a) && rest != "" && IsSpace(rest[0])
  }

  lemma ItemLineIs(line: string)
    ensures IsItem(line) <==> ItemLine(line)
  {
    if IsItem(line) {
      var a := TrimStartIs(line);
      var s := TrimStart(line);
      assert s == "-" + s[1..];
      assert line == a + "-" + s[1..];
    }
    if a, rest :| line == a + "-" + rest && AllSpace(a) && rest != "" && IsSpace(rest[0]) {
      assert line == a + ("-" + rest);
      TrimStartSkips(a, "-" + rest);
    }
  }

  // ---------------------------------------------------------------- blocks

  ghost predicate FirstKeyLine(lines: Lines, key: string, indent: string, at: nat) {
    && at < |lines| && IsKeyLine(lines[at], key, indent)
    && forall k | 0 <= k < at :: !IsKeyLine(lines[k], key, indent)
  }

  /** Behind a block: blank lines, then the end of the document or a line that is not deeper. */
  ghost predicate StopsAt(lines: Lines, depth: nat, end: nat, stop: nat) {
    && end <= stop <= |lines| && (forall k | end <= k < stop :: AllSpace(lines[k]))
    && (stop < |lines| ==> !Deeper(lines[stop], depth))
  }

  /** Lines `low..end` are what is deeper from `low` on, trailing blank lines left out. */
  ghost predicate DeeperLines(lines: Lines, depth: nat, low: nat, end: nat) {
    && low <= end <= |lines| && (forall k | low <= k < end :: Deeper(lines[k], depth))
    && (end == low || !AllSpace(lines[end - 1]))
    && exists stop :: StopsAt(lines, depth, end, stop)
  }

  /** Lines `at..end`: the first line with the key and everything deeper behind it. */
  ghost predicate BlockAt(lines: Lines, key: string, indent: string, at: nat, end: nat) {
    FirstKeyLine(lines, key, indent, at) && DeeperLines(lines, |indent|, at + 1, end)
  }

  lemma FirstKeyLineIs(lines: Lines, key: string, indent: string, at: nat)
    ensures FirstKeyLine(lines, key, indent, at) <==> at < |lines| && at == FirstOwner(lines, key, indent, 0)
    ensures FirstOwner(lines, key, indent, 0) == |lines|
            ==> forall k | 0 <= k < |lines| :: !IsKeyLine(lines[k], key, indent)
  {
    forall k | 0 <= k < |lines|
      ensures Owns(lines[k], key, indent) <==> IsKeyLine(lines[k], key, indent)
    {
      KeyLineIs(lines[k], key, indent);
    }
  }

  lemma StopIs(lines: Lines, depth: nat, end: nat, stop: nat)
    requires StopsAt(lines, depth, end, stop)
    ensures Closed(lines[end..], depth)
  {
    forall k | end <= k < stop
      ensures Blank(lines[k])
    {
      DeeperIs(lines[k], depth);
    }
    if stop < |lines| {
      DeeperIs(lines[stop], depth);
    }
    BlanksClosed(lines, depth, end, stop);
  }

  lemma ReachStops(lines: Lines, depth: nat, low: nat, end: nat)
    requires low <= |lines| && end == DropBlank(lines, low, Reach(lines, depth, low))
    ensures StopsAt(lines, depth, end, Reach(lines, depth, low))
  {
    var stop := Reach(lines, depth, low);
    forall k | end <= k < stop
      ensures AllSpace(lines[k])
    {
      DeeperIs(lines[k], depth);
    }
    if stop < |lines| {
      DeeperIs(lines[stop], depth);
    }
  }

  lemma ReachIsDeeper(lines: Lines, depth: nat, low: nat, end: nat)
    requires low <= |lines| && end == DropBlank(lines, low, Reach(lines, depth, low))
    ensures DeeperLines(lines, depth, low, end)
  {
    forall k | low <= k < end
      ensures Deeper(lines[k], depth)
    {
      DeeperIs(lines[k], depth);
    }
    if end > low {
      DeeperIs(lines[end - 1], depth);
    }
    ReachStops(lines, depth, low, end);
  }

  lemma DeeperIsReach(lines: Lines, depth: nat, low: nat, end: nat)
    requires DeeperLines(lines, depth, low, end)
    ensures end == DropBlank(lines, low, Reach(lines, depth, low))
  {
    var stop :| StopsAt(lines, depth, end, stop);
    StopIs(lines, depth, end, stop);
    forall k | low <= k < end
      ensures Inside(lines[k], depth)
    {
      DeeperIs(lines[k], depth);
    }
    if end > low {
      DeeperIs(lines[end - 1], depth);
    }
    EndIsUnique(lines, depth, low, end);
  }

  ghost predicate FoundAt(lines: Lines, key: string, indent: string, at: nat, end: nat) {
    match Find(lines, key, indent)
    case None => false
    case Some(b) => b.at == at && b.end == end
  }

  /** The search finds exactly the block so described. */
  lemma BlockAtIs(lines: Lines, key: string, indent: string, at: nat, end: nat)
    ensures BlockAt(lines, key, indent, at, end) <==> FoundAt(lines, key, indent, at, end)
    ensures Find(lines, key, indent) == None <==> forall k | 0 <= k < |lines| :: !IsKeyLine(lines[k], key, indent)
  {
    FirstKeyLineIs(lines, key, indent, at);
    if BlockAt(lines, key, indent, at, end) {
      DeeperIsReach(lines, |indent|, at + 1, end);
    }
    if FoundAt(lines, key, indent, at, end) {
      ReachIsDeeper(lines, |indent|, at + 1, end);
    }
    FirstKeyLineIs(lines, key, indent, FirstOwner(lines, key, indent, 0));
  }
}
