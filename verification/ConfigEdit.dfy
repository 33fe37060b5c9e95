/** What an `evidence.exclude` edit keeps: the rest of the document, and itself when it is repeated. */
module ConfigEdit {
  import opened Text
  import opened ConfigText

  // ---------------------------------------------------------------- where a block ends

  /** Behind a block: blank lines, then the end of the document or a line that is not deeper. */
  ghost predicate Closed(post: Lines, depth: nat) {
    post == [] || !Inside(post[0], depth) || (Blank(post[0]) && Closed(post[1..], depth))
  }

  lemma {:induction false} ClosedBlanks(post: Lines, depth: nat, n: nat)
    requires Closed(post, depth) && n <= |post|
    requires forall k | 0 <= k < n :: Inside(post[k], depth)
    ensures forall k | 0 <= k < n :: Blank(post[k])
  {
    if n > 0 {
      forall k | 0 <= k < n - 1
        ensures Inside(post[1..][k], depth)
      {
        assert post[1..][k] == post[k + 1];
      }
      ClosedBlanks(post[1..], depth, n - 1);
      forall k | 1 <= k < n
        ensures Blank(post[k])
      {
        assert post[1..][k - 1] == post[k];
      }
    }
  }

  lemma {:induction false} BlanksClosed(lines: Lines, depth: nat, e: nat, r: nat)
    requires e <= r <= |lines|
    requires forall k | e <= k < r :: Blank(lines[k])
    requires r < |lines| ==> !Inside(lines[r], depth)
    ensures Closed(lines[e..], depth)
    decreases r - e
  {
    if e < r {
      BlanksClosed(lines, depth, e + 1, r);
      assert lines[e..][1..] == lines[e + 1..];
    }
  }

  /** What follows the first non-blank line does not matter. */
  lemma {:induction false} ClosedJoin(x: Lines, y: Lines, z: Lines, depth: nat)
    requires Closed(x + y, depth) && Closed(z, depth)
    ensures Closed(x + z, depth)
  {
    if x == [] {
      assert x + z == z;
    } else {
      assert (x + y)[1..] == x[1..] + y && (x + z)[1..] == x[1..] + z;
      if Blank(x[0]) {
        ClosedJoin(x[1..], y, z, depth);
      }
    }
  }

  lemma {:induction false} ClosedDeeper(post: Lines, low: nat, high: nat)
    requires Closed(post, low) && low <= high
    ensures Closed(post, high)
  {
    if post != [] && Blank(post[0]) {
      ClosedDeeper(post[1..], low, high);
    }
  }

  ghost predicate NoOwner(r: Lines, key: string, indent: string) {
    forall k | 0 <= k < |r| :: !Owns(r[k], key, indent)
  }

  /** A key line with the blank or deeper lines it owns, the last of them not blank. */
  ghost predicate BlockShape(block: Lines, key: string, indent: string) {
    && block != []
    && Owns(block[0], key, indent)
    && (forall k | 0 < k < |block| :: Inside(block[k], |indent|))
    && (|block| == 1 || !Blank(block[|block| - 1]))
  }

  /** Where a block is, described without any search. */
  ghost predicate Spans(lines: Lines, key: string, indent: string, at: nat, end: nat) {
    && at < end <= |lines|
    && NoOwner(lines[..at], key, indent)
    && BlockShape(lines[at..end], key, indent)
    && Closed(lines[end..], |indent|)
  }

  ghost predicate IsBlock(lines: Lines, key: string, indent: string, b: KeyBlock) {
    Spans(lines, key, indent, b.at, b.end) && b.value == ValueOf(lines[b.at], key, indent)
  }

  lemma EndIsClosed(lines: Lines, depth: nat, low: nat)
    requires low <= |lines|
    ensures Closed(lines[DropBlank(lines, low, Reach(lines, depth, low))..], depth)
  {
    var r := Reach(lines, depth, low);
    BlanksClosed(lines, depth, DropBlank(lines, low, r), r);
  }

  /** Lines `low..end` are inside the block, and the last of them is not blank. */
  ghost predicate Body(lines: Lines, depth: nat, low: nat, end: nat) {
    && low <= end <= |lines|
    && (forall k | low <= k < end :: Inside(lines[k], depth))
    && (end == low || !Blank(lines[end - 1]))
  }

  lemma FoundBody(lines: Lines, depth: nat, low: nat)
    requires low <= |lines|
    ensures Body(lines, depth, low, DropBlank(lines, low, Reach(lines, depth, low)))
  {
  }

  lemma ShapeOf(lines: Lines, key: string, indent: string, at: nat, end: nat)
    requires at < |lines| && Owns(lines[at], key, indent)
    requires Body(lines, |indent|, at + 1, end)
    ensures BlockShape(lines[at..end], key, indent)
  {
    var block := lines[at..end];
    assert block[|block| - 1] == lines[end - 1];
    forall k | 0 < k < |block|
      ensures Inside(block[k], |indent|)
    {
      assert block[k] == lines[at + k];
    }
  }

  lemma FoundShape(lines: Lines, key: string, indent: string, at: nat, end: nat)
    requires at < |lines| && Owns(lines[at], key, indent)
    requires end == DropBlank(lines, at + 1, Reach(lines, |indent|, at + 1))
    ensures BlockShape(lines[at..end], key, indent)
  {
    FoundBody(lines, |indent|, at + 1);
    ShapeOf(lines, key, indent, at, end);
  }

  lemma NoEarlierOwner(lines: Lines, key: string, indent: string, at: nat)
    requires at == FirstOwner(lines, key, indent, 0)
    ensures NoOwner(lines[..at], key, indent)
  {
    forall k | 0 <= k < at
      ensures !Owns(lines[..at][k], key, indent)
    {
      assert lines[..at][k] == lines[k];
    }
  }

  lemma FoundSpans(lines: Lines, key: string, indent: string, at: nat, end: nat)
    requires at == FirstOwner(lines, key, indent, 0) < |lines|
    requires end == DropBlank(lines, at + 1, Reach(lines, |indent|, at + 1))
    ensures Spans(lines, key, indent, at, end)
  {
    NoEarlierOwner(lines, key, indent, at);
    EndIsClosed(lines, |indent|, at + 1);
    FoundShape(lines, key, indent, at, end);
  }

  lemma FoundIsBlock(lines: Lines, key: string, indent: string, b: KeyBlock)
    requires Find(lines, key, indent) == Some(b)
    ensures IsBlock(lines, key, indent, b)
  {
    FoundSpans(lines, key, indent, b.at, b.end);
  }

  /** The block of the first declaring line has one end only. */
  lemma EndIsUnique(lines: Lines, depth: nat, low: nat, e: nat)
    requires low <= e <= |lines|
    requires forall k | low <= k < e :: Inside(lines[k], depth)
    requires e == low || !Blank(lines[e - 1])
    requires Closed(lines[e..], depth)
    ensures DropBlank(lines, low, Reach(lines, depth, low)) == e
  {
    var r := Reach(lines, depth, low);
    assert e <= r;
    var post := lines[e..];
    forall k | 0 <= k < r - e
      ensures Inside(post[k], depth)
    {
      assert post[k] == lines[e + k];
    }
    ClosedBlanks(post, depth, r - e);
    forall k | e <= k < r
      ensures Blank(lines[k])
    {
      assert post[k - e] == lines[k];
    }
  }

  lemma SpanStart(lines: Lines, key: string, indent: string, at: nat, end: nat)
    requires Spans(lines, key, indent, at, end)
    ensures FirstOwner(lines, key, indent, 0) == at
  {
    assert lines[at..end][0] == lines[at];
    forall k | 0 <= k < at
      ensures !Owns(lines[k], key, indent)
    {
      assert lines[..at][k] == lines[k];
    }
  }

  lemma SpanEnd(lines: Lines, key: string, indent: string, at: nat, end: nat)
    requires Spans(lines, key, indent, at, end)
    ensures DropBlank(lines, at + 1, Reach(lines, |indent|, at + 1)) == end
  {
    var block := lines[at..end];
    assert block[|block| - 1] == lines[end - 1];
    forall k | at < k < end
      ensures Inside(lines[k], |indent|)
    {
      assert block[k - at] == lines[k];
    }
    EndIsUnique(lines, |indent|, at + 1, end);
  }

  lemma BlockIsFound(lines: Lines, key: string, indent: string, b: KeyBlock)
    requires IsBlock(lines, key, indent, b)
    ensures Find(lines, key, indent) == Some(b)
  {
    SpanStart(lines, key, indent, b.at, b.end);
    SpanEnd(lines, key, indent, b.at, b.end);
  }

  /** Lines `from..to` replaced by `r`. */
  function Splice(lines: Lines, from: nat, to: nat, r: Lines): Lines
    requires from <= to <= |lines|
  {
    lines[..from] + r + lines[to..]
  }

  lemma SpliceBehind(s: Lines, at: nat, end: nat, from: nat, to: nat, r: Lines)
    requires at <= end <= from <= to <= |s|
    ensures var after := s[..from] + r + s[to..];
      && after[..at] == s[..at]
      && after[at..end] == s[at..end]
      && after[end..] == s[end..from] + (r + s[to..])
    ensures s[end..] == s[end..from] + s[from..]
  {
  }

  lemma SpliceAhead(s: Lines, at: nat, end: nat, from: nat, to: nat, r: Lines)
    requires from <= to <= at <= end <= |s|
    ensures var after, m := s[..from] + r + s[to..], from + |r| - to;
      && after[..at + m] == s[..from] + r + s[to..at]
      && after[at + m..end + m] == s[at..end]
      && after[end + m..] == s[end..]
  {
  }

  /** A block before the replaced lines stays, as long as what replaces them is not deeper. */
  lemma BlockBefore(lines: Lines, key: string, indent: string, b: KeyBlock, from: nat, to: nat, r: Lines)
    requires IsBlock(lines, key, indent, b) && b.end <= from <= to <= |lines|
    requires Closed(r + lines[to..], |indent|)
    ensures IsBlock(Splice(lines, from, to, r), key, indent, b)
    ensures Splice(lines, from, to, r)[b.at..b.end] == lines[b.at..b.end]
  {
    SpliceBehind(lines, b.at, b.end, from, to, r);
    ClosedJoin(lines[b.end..from], lines[from..], r + lines[to..], |indent|);
    assert Splice(lines, from, to, r)[b.at] == lines[b.at];
  }

  function Moved(b: KeyBlock, from: nat, to: nat, n: nat): KeyBlock
    requires from <= to <= b.at <= b.end
  {
    KeyBlock(b.at - to + from + n, b.value, b.end - to + from + n)
  }

  /** A block behind the replaced lines moves, as long as none of the new lines declares its key. */
  lemma BlockAfter(lines: Lines, key: string, indent: string, b: KeyBlock, from: nat, to: nat, r: Lines)
    requires IsBlock(lines, key, indent, b) && from <= to <= b.at
    requires NoOwner(r, key, indent)
    ensures IsBlock(Splice(lines, from, to, r), key, indent, Moved(b, from, to, |r|))
    ensures var m := Moved(b, from, to, |r|);
      Splice(lines, from, to, r)[m.at..m.end] == lines[b.at..b.end]
  {
    SpliceAhead(lines, b.at, b.end, from, to, r);
    assert Splice(lines, from, to, r)[Moved(b, from, to, |r|).at] == lines[b.at];
    assert NoOwner(lines[..from], key, indent) by {
      assert forall k | 0 <= k < from :: lines[..from][k] == lines[..b.at][k];
    }
    assert NoOwner(lines[to..b.at], key, indent) by {
      assert forall k | 0 <= k < b.at - to :: lines[to..b.at][k] == lines[..b.at][to + k];
    }
  }

  // ---------------------------------------------------------------- the shape of single lines

  ghost predicate Spaces(indent: string) { forall c | c in indent :: c == ' ' }

  lemma {:induction false} TrimIndent(indent: string, s: string)
    requires Spaces(indent) && s != "" && !IsSpace(s[0])
    ensures TrimStart(indent + s) == s
    ensures Depth(indent + s) == |indent| && !Blank(indent + s)
  {
    if indent == "" {
      assert indent + s == s;
    } else {
      assert indent[0] in indent;
      assert forall c | c in indent[1..] :: c in indent;
      TrimIndent(indent[1..], s);
      assert (indent + s)[1..] == indent[1..] + s;
    }
    TrimEndKeeps(s, s[0]);
  }

  /** A line that declares a key is not blank, sits at that indent, and goes on with the key. */
  lemma OwnerShape(line: string, key: string, indent: string)
    requires Spaces(indent) && key != "" && !IsSpace(key[0])
    requires Owns(line, key, indent)
    ensures !Blank(line) && Depth(line) == |indent|
    ensures |indent| < |line| && line[..|indent|] == indent && line[|indent|] == key[0]
    ensures TrimStart(line)[..] == line[|indent|..]
  {
    var prefix := indent + key + ":";
    assert line[..|prefix|] == prefix;
    assert line[|indent|] == prefix[|indent|] == key[0];
    assert line == indent + line[|indent|..];
    TrimIndent(indent, line[|indent|..]);
  }

  /** Blank lines and list items declare no key. */
  lemma BodyOwnsNothing(line: string, key: string, indent: string)
    requires Spaces(indent) && key != "" && !IsSpace(key[0]) && key[0] != '-'
    requires Blank(line) || IsItem(line)
    ensures !Owns(line, key, indent)
  {
    if Owns(line, key, indent) {
      OwnerShape(line, key, indent);
    }
  }

  predicate ListKey(key: string) { key == "docs" || key == "cache" }

  /** Keys and indents this writer looks for. */
  predicate Known(key: string, indent: string) {
    (key == "evidence" && indent == "") || (key == "exclude" && indent == "  ") || (ListKey(key) && indent == "    ")
  }

  /** A declaring line declares only one of the known keys. */
  lemma OneOwner(line: string, key: string, indent: string, key': string, indent': string)
    requires Known(key, indent) && Known(key', indent')
    requires Owns(line, key, indent) && Owns(line, key', indent')
    ensures key == key' && indent == indent'
  {
    OwnerShape(line, key, indent);
    OwnerShape(line, key', indent');
  }

  // ---------------------------------------------------------------- rendered lines

  lemma ItemShape(value: string)
    ensures var line := "    " + "  - " + Json(value);
      && IsItem(line) && !Blank(line) && Depth(line) == 6
  {
    var tail := "- " + Json(value);
    assert "    " + "  - " + Json(value) == "      " + tail;
    TrimIndent("      ", tail);
  }

  lemma {:induction false} ItemsAt(values: seq<string>, k: nat)
    requires k < |values|
    ensures |Items("    ", values)| == |values|
    ensures Items("    ", values)[k] == "    " + "  - " + Json(values[k])
  {
    if k > 0 {
      ItemsAt(values[1..], k - 1);
    } else if |values| > 1 {
      ItemsAt(values[1..], 0);
    }
  }

  lemma ItemsShape(values: seq<string>)
    ensures forall k | 0 <= k < |Items("    ", values)| ::
      var line := Items("    ", values)[k]; IsItem(line) && !Blank(line) && Depth(line) == 6
  {
    if values != [] {
      ItemsAt(values, 0);
    }
    forall k | 0 <= k < |Items("    ", values)|
      ensures var line := Items("    ", values)[k]; IsItem(line) && !Blank(line) && Depth(line) == 6
    {
      ItemsAt(values, k);
      ItemShape(values[k]);
    }
  }

  predicate Replaceable(value: string) { value == "" || value == "[]" }

  lemma HashIs(line: string, i: nat)
    requires i <= |line| && forall k | 0 <= k < i :: line[k] != '#'
    requires i < |line| ==> line[i] == '#'
    ensures HashAt(line, 0) == i
  {
  }

  lemma CommentIs(rest: string, j: nat)
    requires j <= |rest| && forall k | 0 <= k < j :: !IsComment(rest, k)
    requires j < |rest| ==> IsComment(rest, j)
    ensures CommentAt(rest, 0) == j
  {
  }

  /** A trailing comment as this writer carries it over: from the `#` on, without a line break. */
  ghost predicate CommentText(c: string) { c == "" || (c[0] == '#' && OneLine(c[1..])) }

  function WithComment(head: string, c: string): string { if c == "" then head else head + " " + c }

  lemma CommentBehind(prefix: string, flow: string, c: string)
    ensures WithComment(prefix + flow, c) == prefix + WithComment(flow, c)
  {
  }

  /** A key line whose list this writer may replace. */
  ghost predicate Rewritable(line: string, key: string, indent: string) {
    Owns(line, key, indent) && Replaceable(ValueOf(line, key, indent))
  }

  /** The value of a line that holds nothing or `[]` besides a comment. */
  lemma ValueBeforeComment(flow: string, c: string)
    requires flow == "" || flow == " []"
    requires CommentText(c)
    ensures var rest := WithComment(flow, c); Trim(rest[..CommentAt(rest, 0)]) == Trim(flow)
    ensures Replaceable(Trim(flow))
  {
    var rest := WithComment(flow, c);
    var bare := TrimStart(" []");
    assert bare == "[]";
    if c == "" {
      assert '#' !in flow;
      CommentIs(rest, |rest|);
      assert rest[..|rest|] == flow;
    } else {
      var j := |flow| + 1;
      assert rest[j + 1..] == c[1..];
      CommentIs(rest, j);
      assert rest[..j] == flow + " ";
      TrimsToSame(flow);
    }
  }

  lemma TrimsToSame(flow: string)
    requires flow == "" || flow == " []"
    ensures Trim(flow + " ") == Trim(flow)
  {
    if flow == "" {
      assert flow + " " == " ";
    } else {
      assert flow + " " == " [] ";
      assert TrimStart(flow) == "[]";
      assert TrimStart(" [] ") == "[] ";
      assert TrimEnd("[] ") == TrimEnd("[]") == "[]";
    }
  }

  /** A key line written as `key:`, an optional ` []` and an optional comment. */
  lemma KeyLineValue(key: string, indent: string, flow: string, c: string)
    requires flow == "" || flow == " []"
    requires CommentText(c)
    ensures var line := indent + key + ":" + WithComment(flow, c);
      Rewritable(line, key, indent)
  {
    var prefix := indent + key + ":";
    var tail := WithComment(flow, c);
    var line := prefix + tail;
    ValueBeforeComment(flow, c);
    assert line[|prefix|..] == tail;
    assert tail != "" ==> line[|prefix|] == tail[0] == ' ';
  }

  lemma KeyLineHash(head: string, c: string)
    requires CommentText(c) && forall k | 0 <= k < |head| :: head[k] != '#'
    ensures var line := WithComment(head, c);
      HashAt(line, 0) == (if c == "" then |head| else |head| + 1)
  {
    HashIs(WithComment(head, c), if c == "" then |head| else |head| + 1);
  }

  function Flow(values: seq<string>): string { if values == [] then " []" else "" }

  lemma HeadShape(key: string, values: seq<string>)
    requires ListKey(key)
    ensures var head := RenderList(key, "    ", values)[0];
      head == "    " + key + ":" + Flow(values) && forall k | 0 <= k < |head| :: head[k] != '#'
  {
    if key == "docs" {
      assert "    " + key + ":" + Flow(values) == if values == [] then "    docs: []" else "    docs:";
    } else {
      assert "    " + key + ":" + Flow(values) == if values == [] then "    cache: []" else "    cache:";
    }
  }

  lemma KeyLineFacts(key: string, values: seq<string>, c: string)
    requires ListKey(key) && CommentText(c)
    ensures var head := RenderList(key, "    ", values)[0];
      && Rewritable(WithComment(head, c), key, "    ")
      && HashAt(WithComment(head, c), 0) == (if c == "" then |head| else |head| + 1)
  {
    var head := RenderList(key, "    ", values)[0];
    HeadShape(key, values);
    KeyLineHash(head, c);
    KeyLineValue(key, "    ", Flow(values), c);
    CommentBehind("    " + key + ":", Flow(values), c);
  }

  lemma ReplaceableHasNoHash(s: string)
    requires Replaceable(Trim(s))
    ensures forall k | 0 <= k < |s| :: s[k] != '#'
  {
    forall k | 0 <= k < |s|
      ensures s[k] != '#'
    {
      if s[k] == '#' {
        TrimKeeps(s, '#');
      }
    }
  }

  lemma HashBehind(prefix: string, rest: string, j: nat)
    requires forall k | 0 <= k < |prefix| :: prefix[k] != '#'
    requires j <= |rest| && forall k | 0 <= k < j :: rest[..j][k] != '#'
    requires j < |rest| ==> rest[j] == '#'
    ensures HashAt(prefix + rest, 0) == |prefix| + j
  {
    assert forall k | 0 <= k < j :: rest[k] == rest[..j][k];
    HashIs(prefix + rest, |prefix| + j);
  }

  /** The comment of a key line that may be replaced starts at its first `#`. */
  lemma CommentOfKeyLine(line: string, key: string)
    requires ListKey(key) && Rewritable(line, key, "    ")
    ensures CommentText(line[HashAt(line, 0)..])
  {
    var prefix := "    " + key + ":";
    var rest := line[|prefix|..];
    var j := CommentAt(rest, 0);
    ReplaceableHasNoHash(rest[..j]);
    assert line == prefix + rest;
    HashBehind(prefix, rest, j);
    assert line[|prefix| + j..] == rest[j..];
    assert j < |rest| ==> rest[j..][1..] == rest[j + 1..];
  }

  /** The lines this writer leaves for a list: rendering it again over its own key line changes nothing. */
  ghost predicate Settled(r: Lines, key: string, values: seq<string>) {
    && r != []
    && Rewritable(r[0], key, "    ")
    && r == RenderOver(r[0], key, "    ", values)
  }

  /** Rendering over a replaceable key line, or with no line to replace, leaves a settled list. */
  lemma RenderSettles(line: string, key: string, values: seq<string>)
    requires ListKey(key) && Rewritable(line, key, "    ")
    ensures Settled(RenderOver(line, key, "    ", values), key, values)
  {
    var c := line[HashAt(line, 0)..];
    CommentOfKeyLine(line, key);
    KeyLineFacts(key, values, c);
    SettledWith(key, values, c);
  }

  lemma SettledWith(key: string, values: seq<string>, c: string)
    requires ListKey(key) && CommentText(c)
    ensures var rendered := RenderList(key, "    ", values);
      Settled([WithComment(rendered[0], c)] + rendered[1..], key, values)
  {
    var rendered := RenderList(key, "    ", values);
    var line := WithComment(rendered[0], c);
    KeyLineFacts(key, values, c);
    assert c != "" ==> line[HashAt(line, 0)..] == c;
    assert c == "" ==> [line] + rendered[1..] == rendered;
  }

  lemma RenderFresh(key: string, values: seq<string>)
    requires ListKey(key)
    ensures Settled(RenderList(key, "    ", values), key, values)
  {
    var rendered := RenderList(key, "    ", values);
    SettledWith(key, values, "");
    assert [rendered[0]] + rendered[1..] == rendered;
  }

  // ---------------------------------------------------------------- settled lists

  /** Lines that belong to the list `key`: its key line, blank lines and items. */
  ghost predicate ListLines(r: Lines, key: string) {
    forall k | 0 <= k < |r| :: Blank(r[k]) || IsItem(r[k]) || Owns(r[k], key, "    ")
  }

  lemma ListLinesOwn(r: Lines, key: string, key': string, indent': string)
    requires ListKey(key) && ListLines(r, key)
    requires Known(key', indent') && key' != key
    ensures NoOwner(r, key', indent')
  {
    forall k | 0 <= k < |r|
      ensures !Owns(r[k], key', indent')
    {
      if Owns(r[k], key', indent') {
        if Owns(r[k], key, "    ") {
          OneOwner(r[k], key, "    ", key', indent');
        } else {
          BodyOwnsNothing(r[k], key', indent');
        }
      }
    }
  }

  lemma SettledTail(r: Lines, key: string, values: seq<string>)
    requires Settled(r, key, values)
    ensures forall k | 0 < k < |r| :: IsItem(r[k]) && !Blank(r[k]) && Depth(r[k]) == 6
  {
    ItemsShape(values);
    assert r[1..] == RenderList(key, "    ", values)[1..];
    forall k | 0 < k < |r|
      ensures IsItem(r[k]) && !Blank(r[k]) && Depth(r[k]) == 6
    {
      assert r[k] == r[1..][k - 1] == Items("    ", values)[k - 1];
    }
  }

  lemma SettledShape(r: Lines, key: string, values: seq<string>)
    requires ListKey(key) && Settled(r, key, values)
    ensures BlockShape(r, key, "    ") && ListLines(r, key)
    ensures !Blank(r[0]) && Depth(r[0]) == 4
  {
    SettledTail(r, key, values);
    OwnerShape(r[0], key, "    ");
  }

  /** The document holds exactly the requested list, as this writer leaves it. */
  ghost predicate Holds(lines: Lines, key: string, values: seq<string>) {
    match Find(lines, key, "    ")
    case None => false
    case Some(b) => Settled(lines[b.at..b.end], key, values)
  }

  /** A settled list put between lines that do not declare its key and lines that are not deeper. */
  lemma Placed(lines: Lines, from: nat, to: nat, r: Lines, key: string, values: seq<string>)
    requires ListKey(key) && from <= to <= |lines|
    requires Settled(r, key, values) && NoOwner(lines[..from], key, "    ") && Closed(lines[to..], 4)
    ensures var after := Splice(lines, from, to, r);
      && Find(after, key, "    ") == Some(KeyBlock(from, ValueOf(r[0], key, "    "), from + |r|))
      && after[from..from + |r|] == r
  {
    SettledShape(r, key, values);
    var after := Splice(lines, from, to, r);
    assert after[..from] == lines[..from] && after[from..from + |r|] == r && after[from + |r|..] == lines[to..];
    assert after[from] == r[0];
    BlockIsFound(after, key, "    ", KeyBlock(from, ValueOf(r[0], key, "    "), from + |r|));
  }

  lemma BlockLines(lines: Lines, key: string, at: nat, end: nat)
    requires Spans(lines, key, "    ", at, end)
    ensures Owns(lines[at], key, "    ")
    ensures forall k | at < k < end :: Inside(lines[k], 4)
  {
    var block := lines[at..end];
    assert block[0] == lines[at];
    forall k | at < k < end
      ensures Inside(lines[k], 4)
    {
      assert block[k - at] == lines[k];
    }
  }

  /** Two lists never overlap: a key line is not deeper than the other key line. */
  lemma Disjoint(lines: Lines, key: string, at: nat, end: nat, key': string, at': nat, end': nat)
    requires ListKey(key) && ListKey(key') && key != key'
    requires Spans(lines, key, "    ", at, end) && Spans(lines, key', "    ", at', end')
    ensures end <= at' || end' <= at
  {
    BlockLines(lines, key, at, end);
    BlockLines(lines, key', at', end');
    OwnerShape(lines[at], key, "    ");
    OwnerShape(lines[at'], key', "    ");
  }

  /** The end of the `exclude` block is never inside a list this writer has left. */
  lemma NotInside(lines: Lines, e: nat, key: string, values: seq<string>, at: nat, end: nat)
    requires ListKey(key) && at < end <= |lines| && e <= |lines|
    requires Settled(lines[at..end], key, values)
    requires Closed(lines[e..], 2)
    ensures end <= e || e <= at
  {
    var block := lines[at..end];
    SettledTail(block, key, values);
    forall k | at < k < end
      ensures !Blank(lines[k]) && Depth(lines[k]) == 6
    {
      assert block[k - at] == lines[k];
    }
    assert e < |lines| ==> lines[e..][0] == lines[e];
  }

  // ---------------------------------------------------------------- one list set

  /** The document has `evidence:` and `exclude:` blocks with nothing inline. */
  ghost predicate Opens(lines: Lines, key: string, indent: string) {
    var at := FirstOwner(lines, key, indent, 0);
    at < |lines| && ValueOf(lines[at], key, indent) == ""
  }

  ghost predicate Ready(lines: Lines) { Opens(lines, "evidence", "") && Opens(lines, "exclude", "  ") }

  /** Lines `from..to` of the list `key` become the settled list `r`. */
  ghost predicate Step(lines: Lines, key: string, values: seq<string>, from: nat, to: nat, r: Lines, after: Lines) {
    && from <= to <= |lines|
    && after == Splice(lines, from, to, r)
    && Settled(r, key, values)
    && ListLines(lines[from..to], key)
    && NoOwner(lines[..from], key, "    ")
    && Closed(lines[to..], 4)
    && match Find(lines, key, "    ") {
         case Some(b) => from == b.at && to == b.end
         case None => from == to && Closed(lines[from..], 2)
       }
  }

  lemma FreshStep(lines: Lines, key: string, values: seq<string>, e: nat)
    requires ListKey(key) && Find(lines, key, "    ") == None
    requires e <= |lines| && Closed(lines[e..], 2)
    ensures var r := RenderList(key, "    ", values);
      Step(lines, key, values, e, e, r, Splice(lines, e, e, r))
  {
    NoEarlierOwner(lines, key, "    ", |lines|);
    assert lines[..e] == lines[..|lines|][..e];
    RenderFresh(key, values);
    ClosedDeeper(lines[e..], 2, 4);
  }

  lemma PlainListLines(lines: Lines, key: string, at: nat, end: nat)
    requires at < end <= |lines| && Owns(lines[at], key, "    ") && PlainList(lines, at + 1, end)
    ensures ListLines(lines[at..end], key)
  {
    var block := lines[at..end];
    forall k | 0 <= k < |block|
      ensures Blank(block[k]) || IsItem(block[k]) || Owns(block[k], key, "    ")
    {
      assert block[k] == lines[at + k];
    }
  }

  lemma ReplaceStep(lines: Lines, key: string, values: seq<string>, b: KeyBlock)
    requires ListKey(key) && IsBlock(lines, key, "    ", b) && Find(lines, key, "    ") == Some(b)
    requires Replaceable(b.value) && PlainList(lines, b.at + 1, b.end)
    ensures var r := RenderOver(lines[b.at], key, "    ", values);
      Step(lines, key, values, b.at, b.end, r, Splice(lines, b.at, b.end, r))
  {
    BlockLines(lines, key, b.at, b.end);
    RenderSettles(lines[b.at], key, values);
    PlainListLines(lines, key, b.at, b.end);
  }

  lemma ListStep(lines: Lines, key: string, values: seq<string>, after: Lines) returns (from: nat, to: nat, r: Lines)
    requires ListKey(key) && SetOne(lines, key, Some(values)) == Ok(after)
    ensures Step(lines, key, values, from, to, r, after)
    ensures Find(lines, key, "    ") == None ==> r == RenderList(key, "    ", values)
    ensures forall b | Find(lines, key, "    ") == Some(b) && b.at < |lines| ::
              r == RenderOver(lines[b.at], key, "    ", values)
  {
    var x := Find(lines, "exclude", "  ").value;
    match Find(lines, key, "    ")
    case None =>
      from, to, r := x.end, x.end, RenderList(key, "    ", values);
      FoundIsBlock(lines, "exclude", "  ", x);
      FreshStep(lines, key, values, x.end);
    case Some(b) =>
      from, to, r := b.at, b.end, RenderOver(lines[b.at], key, "    ", values);
      FoundIsBlock(lines, key, "    ", b);
      ReplaceStep(lines, key, values, b);
  }

  lemma StepHolds(lines: Lines, key: string, values: seq<string>, from: nat, to: nat, r: Lines, after: Lines)
    requires ListKey(key) && Step(lines, key, values, from, to, r, after)
    ensures Holds(after, key, values)
  {
    Placed(lines, from, to, r, key, values);
  }

  /** Replacing lines that do not declare a key by lines that do not declare it keeps its first line. */
  lemma OpensSpliced(lines: Lines, from: nat, to: nat, r: Lines, key: string, indent: string)
    requires from <= to <= |lines| && Opens(lines, key, indent)
    requires NoOwner(lines[from..to], key, indent) && NoOwner(r, key, indent)
    ensures Opens(Splice(lines, from, to, r), key, indent)
  {
    var f := FirstOwner(lines, key, indent, 0);
    var after := Splice(lines, from, to, r);
    assert forall k | from <= k < to :: lines[k] == lines[from..to][k - from];
    var f' := if f < from then f else f - to + from + |r|;
    assert after[f'] == lines[f];
    forall k | 0 <= k < f'
      ensures !Owns(after[k], key, indent)
    {
      if k < from {
        assert after[k] == lines[k];
      } else if k < from + |r| {
        assert after[k] == r[k - from];
      } else {
        assert after[k] == lines[k - from - |r| + to];
      }
    }
  }

  lemma StepKeepsReady(lines: Lines, key: string, values: seq<string>, from: nat, to: nat, r: Lines, after: Lines)
    requires ListKey(key) && Step(lines, key, values, from, to, r, after) && Ready(lines)
    ensures Ready(after)
  {
    SettledShape(r, key, values);
    ListLinesOwn(r, key, "evidence", "");
    ListLinesOwn(r, key, "exclude", "  ");
    ListLinesOwn(lines[from..to], key, "evidence", "");
    ListLinesOwn(lines[from..to], key, "exclude", "  ");
    OpensSpliced(lines, from, to, r, "evidence", "");
    OpensSpliced(lines, from, to, r, "exclude", "  ");
  }

  /** Setting one list leaves the other list as it is, wherever the two stand. */
  lemma StepKeepsOther(lines: Lines, key: string, values: seq<string>, from: nat, to: nat, r: Lines, after: Lines,
                       key': string, values': seq<string>)
    requires ListKey(key) && ListKey(key') && key != key'
    requires Step(lines, key, values, from, to, r, after) && Holds(lines, key', values')
    ensures Holds(after, key', values')
  {
    var b' := Find(lines, key', "    ").value;
    FoundIsBlock(lines, key', "    ", b');
    match Find(lines, key, "    ") {
      case Some(b) =>
        FoundIsBlock(lines, key, "    ", b);
        Disjoint(lines, key, b.at, b.end, key', b'.at, b'.end);
      case None =>
        NotInside(lines, from, key', values', b'.at, b'.end);
    }
    SettledShape(r, key, values);
    if to <= b'.at {
      ListLinesOwn(r, key, key', "    ");
      BlockAfter(lines, key', "    ", b', from, to, r);
      BlockIsFound(after, key', "    ", Moved(b', from, to, |r|));
    } else {
      assert (r + lines[to..])[0] == r[0];
      BlockBefore(lines, key', "    ", b', from, to, r);
      BlockIsFound(after, key', "    ", b');
    }
  }

  lemma SettledIsPlain(lines: Lines, key: string, values: seq<string>, at: nat, end: nat)
    requires at < end <= |lines| && Settled(lines[at..end], key, values)
    ensures PlainList(lines, at + 1, end)
    ensures lines[at..end][0] == lines[at]
  {
    var block := lines[at..end];
    SettledTail(block, key, values);
    forall k | at < k < end
      ensures IsItem(lines[k])
    {
      assert lines[k] == block[k - at];
    }
  }

  lemma SpliceSame<T>(s: seq<T>, at: nat, end: nat)
    requires at <= end <= |s|
    ensures s[..at] + s[at..end] + s[end..] == s
  {
  }

  /** A list that is held already is not touched. */
  lemma HeldIsKept(lines: Lines, key: string, values: seq<string>)
    requires ListKey(key) && Ready(lines) && Holds(lines, key, values)
    ensures SetOne(lines, key, Some(values)) == Ok(lines)
  {
    var b := Find(lines, key, "    ").value;
    SettledIsPlain(lines, key, values, b.at, b.end);
    SpliceSame(lines, b.at, b.end);
  }

  // ---------------------------------------------------------------- the whole edit

  ghost predicate HoldsRequested(lines: Lines, key: string, values: Option<seq<string>>) {
    values.Some? ==> Holds(lines, key, values.value)
  }

  lemma FirstOwnerIs(lines: Lines, key: string, indent: string, at: nat)
    requires at < |lines| && Owns(lines[at], key, indent) && NoOwner(lines[..at], key, indent)
    ensures FirstOwner(lines, key, indent, 0) == at
  {
    assert forall k | 0 <= k < at :: lines[k] == lines[..at][k];
  }

  /** After the headers are written, both blocks are there and open. */
  lemma HeadersReady(lines: Lines)
    ensures WithHeaders(lines).Err? || Ready(WithHeaders(lines).value)
    ensures WithHeaders(lines) != Err(MissingBlock)
  {
    match Find(lines, "evidence", "")
    case Some(b) =>
      if b.value == "" {
        ExcludeReady(lines);
      }
    case None =>
      EvidenceAdded(lines);
      ExcludeReady(WithEvidence(lines));
  }

  lemma EvidenceAdded(lines: Lines)
    requires Find(lines, "evidence", "") == None
    ensures Opens(WithEvidence(lines), "evidence", "")
    ensures Find(WithEvidence(lines), "exclude", "  ").Some?
  {
    var after := WithEvidence(lines);
    var at := |after| - 2;
    NoEarlierOwner(lines, "evidence", "", |lines|);
    assert lines[..|lines|] == lines;
    assert after[at] == "evidence:" && after[at + 1] == "  exclude:";
    assert after[..at] == lines || after[..at] == lines + [""];
    FirstOwnerIs(after, "evidence", "", at);
    assert Trim("") == "";
    assert Owns(after[at + 1], "exclude", "  ");
  }

  lemma ExcludeAdded(lines: Lines, e: nat)
    requires Find(lines, "exclude", "  ") == None && e <= |lines|
    ensures Opens(Splice(lines, e, e, ["  exclude:"]), "exclude", "  ")
  {
    var after := Splice(lines, e, e, ["  exclude:"]);
    NoEarlierOwner(lines, "exclude", "  ", |lines|);
    assert lines[..|lines|][..e] == lines[..e] == after[..e];
    assert after[e] == "  exclude:";
    FirstOwnerIs(after, "exclude", "  ", e);
    assert Trim("") == "";
  }

  lemma ExcludeReady(lines: Lines)
    requires Opens(lines, "evidence", "")
    ensures WithExclude(lines).Err? || Ready(WithExclude(lines).value)
    ensures WithExclude(lines) != Err(MissingBlock)
  {
    if Find(lines, "exclude", "  ").None? {
      var e := Find(lines, "evidence", "").value.end;
      ExcludeAdded(lines, e);
      OpensSpliced(lines, e, e, ["  exclude:"], "evidence", "");
    }
  }

  lemma SetOneKeeps(lines: Lines, key: string, values: Option<seq<string>>, key': string, values': Option<seq<string>>)
    requires ListKey(key) && ListKey(key') && key != key'
    requires Ready(lines) && SetOne(lines, key, values).Ok?
    ensures var after := SetOne(lines, key, values).value;
      && Ready(after)
      && HoldsRequested(after, key, values)
      && (HoldsRequested(lines, key', values') ==> HoldsRequested(after, key', values'))
  {
    if values.Some? {
      var after := SetOne(lines, key, values).value;
      var from, to, r := ListStep(lines, key, values.value, after);
      StepHolds(lines, key, values.value, from, to, r, after);
      StepKeepsReady(lines, key, values.value, from, to, r, after);
      if values'.Some? && Holds(lines, key', values'.value) {
        StepKeepsOther(lines, key, values.value, from, to, r, after, key', values'.value);
      }
    }
  }

  /** An accepted edit leaves both blocks open and every requested list exactly as asked for. */
  lemma EditSettles(lines: Lines, lists: Lists)
    requires Edit(lines, lists).Ok?
    ensures var after := Edit(lines, lists).value;
      && Ready(after)
      && HoldsRequested(after, "docs", lists.docs)
      && HoldsRequested(after, "cache", lists.cache)
  {
    HeadersReady(lines);
    var l1 := WithHeaders(lines).value;
    SetOneKeeps(l1, "docs", lists.docs, "cache", None);
    SetOneKeeps(SetOne(l1, "docs", lists.docs).value, "cache", lists.cache, "docs", lists.docs);
  }

  /** Repeating an accepted edit changes no line. */
  lemma EditIsIdempotent(lines: Lines, lists: Lists)
    requires Edit(lines, lists).Ok?
    ensures Edit(Edit(lines, lists).value, lists) == Edit(lines, lists)
  {
    var after := Edit(lines, lists).value;
    EditSettles(lines, lists);
    assert WithHeaders(after) == Ok(after);
    if lists.docs.Some? {
      HeldIsKept(after, "docs", lists.docs.value);
    }
    if lists.cache.Some? {
      HeldIsKept(after, "cache", lists.cache.value);
    }
  }

  lemma ReadyHasExclude(lines: Lines, key: string, values: Option<seq<string>>)
    requires Ready(lines)
    ensures SetOne(lines, key, values) != Err(MissingBlock)
  {
  }

  /** The two "no block after insertion" refusals cannot happen. */
  lemma BlocksAreFound(lines: Lines, lists: Lists)
    ensures Edit(lines, lists) != Err(MissingBlock)
  {
    HeadersReady(lines);
    if WithHeaders(lines).Ok? {
      var l1 := WithHeaders(lines).value;
      ReadyHasExclude(l1, "docs", lists.docs);
      var step := SetOne(l1, "docs", lists.docs);
      if step.Ok? {
        SetOneKeeps(l1, "docs", lists.docs, "cache", None);
        ReadyHasExclude(step.value, "cache", lists.cache);
      }
    }
  }
}
