/** Writing the same `evidence.exclude` lists twice: the second call changes nothing, unless a line ends in CR. */
module ConfigRepeat {
  import opened Text
  import opened ConfigText
  import opened ConfigEdit
  import opened ConfigRest

  // ---------------------------------------------------------------- counting a line-break character

  function Count(s: string, c: char): nat {
    if s == "" then 0 else (if s[0] == c then 1 else 0) + Count(s[1..], c)
  }

  function LineCount(lines: Lines, c: char): nat {
    if lines == [] then 0 else Count(lines[0], c) + LineCount(lines[1..], c)
  }

  lemma {:induction false} CountConcat(a: string, b: string, c: char)
    ensures Count(a + b, c) == Count(a, c) + Count(b, c)
  {
    if a == "" {
      assert a + b == b;
    } else {
      CountConcat(a[1..], b, c);
      assert (a + b)[1..] == a[1..] + b;
    }
  }

  lemma {:induction false} CountZero(s: string, c: char)
    ensures Count(s, c) == 0 <==> c !in s
  {
    if s != "" {
      CountZero(s[1..], c);
      assert s == [s[0]] + s[1..];
    }
  }

  lemma {:induction false} LineCountConcat(a: Lines, b: Lines, c: char)
    ensures LineCount(a + b, c) == LineCount(a, c) + LineCount(b, c)
  {
    if a == [] {
      assert a + b == b;
    } else {
      LineCountConcat(a[1..], b, c);
      assert (a + b)[1..] == a[1..] + b;
    }
  }

  lemma {:induction false} LineCountZero(lines: Lines, c: char)
    ensures LineCount(lines, c) == 0 <==> Free(lines, c)
  {
    if lines != [] {
      CountZero(lines[0], c);
      LineCountZero(lines[1..], c);
      assert forall k | 1 <= k < |lines| :: lines[k] == lines[1..][k - 1];
      assert forall k | 0 <= k < |lines| - 1 :: lines[1..][k] == lines[k + 1];
    }
  }

  lemma {:induction false} CountOfJoin(lines: Lines, c: char)
    requires lines != [] && c != '\n'
    ensures Count(Join(lines, '\n'), c) == LineCount(lines, c)
  {
    if |lines| == 1 {
      assert lines == [lines[0]] + [];
    } else {
      CountOfJoin(lines[1..], c);
      CountConcat(lines[0], ['\n'], c);
      CountConcat(lines[0] + ['\n'], Join(lines[1..], '\n'), c);
    }
  }

  lemma CountOfText(lines: Lines, c: char)
    requires lines != [] && c != '\n'
    ensures Count(TextOf(lines), c) == LineCount(lines, c)
  {
    CountOfJoin(lines, c);
    CountConcat(Join(lines, '\n'), "\n", c);
  }

  // ---------------------------------------------------------------- CR LF pairs

  ghost predicate CrLfAt(s: string, i: nat) { i + 1 < |s| && s[i] == '\r' && s[i + 1] == '\n' }

  ghost predicate HasCrLf(s: string) { exists i: nat :: CrLfAt(s, i) }

  lemma {:induction false} UnixSame(s: string)
    requires !HasCrLf(s)
    ensures Unix(s) == s
  {
    if s != "" {
      assert !CrLfAt(s, 0);
      forall i: nat
        ensures !CrLfAt(s[1..], i)
      {
        assert !CrLfAt(s, i + 1);
      }
      UnixSame(s[1..]);
    }
  }

  lemma {:induction false} UnixDrops(s: string)
    ensures Count(Unix(s), '\r') <= Count(s, '\r')
    ensures HasCrLf(s) ==> Count(Unix(s), '\r') < Count(s, '\r')
    decreases |s|
  {
    if s != "" {
      if |s| >= 2 && s[0] == '\r' && s[1] == '\n' {
        UnixDrops(s[2..]);
        assert s[1..][1..] == s[2..];
        assert Unix(s)[1..] == Unix(s[2..]);
      } else {
        UnixDrops(s[1..]);
        assert Unix(s)[1..] == Unix(s[1..]);
        if i: nat :| CrLfAt(s, i) {
          assert CrLfAt(s[1..], i - 1);
        }
      }
    }
  }

  lemma LinesOfText(text: string)
    ensures Free(ConfigLines(text), '\n')
    ensures LineCount(ConfigLines(text), '\r') == Count(Unix(text), '\r')
  {
    if text != "" {
      var parts := Split(Unix(text), '\n');
      JoinSplit(Unix(text), '\n');
      CountOfJoin(parts, '\r');
      var front := parts[..|parts| - 1];
      if parts[|parts| - 1] == "" {
        assert parts == front + [""];
        LineCountConcat(front, [""], '\r');
      }
    }
  }

  /** Reading back a written text gives its lines, as long as none ends in CR. */
  lemma TextReadsBack(lines: Lines)
    requires lines != [] && Free(lines, '\n') && !HasCrLf(TextOf(lines))
    ensures ConfigLines(TextOf(lines)) == lines
  {
    UnixSame(TextOf(lines));
    JoinAppend(lines);
    SplitJoin(lines + [""], '\n');
    assert (lines + [""])[..|lines|] == lines;
  }

  lemma {:induction false} JoinAppend(lines: Lines)
    requires lines != []
    ensures Join(lines + [""], '\n') == Join(lines, '\n') + "\n"
  {
    if |lines| > 1 {
      JoinAppend(lines[1..]);
      assert (lines + [""])[1..] == lines[1..] + [""];
    } else {
      assert (lines + [""])[1..] == [""];
    }
  }

  // ---------------------------------------------------------------- an edit adds no CR and no LF

  predicate Break(c: char) { c == '\n' || c == '\r' }

  lemma {:induction false} JsonIsOneLine(s: string, c: char)
    requires Break(c)
    ensures c !in JsonChars(s)
  {
    if s != "" {
      JsonIsOneLine(s[1..], c);
      assert c !in JsonChar(s[0]);
    }
  }

  lemma {:induction false} ItemsAddNone(values: seq<string>, c: char)
    requires Break(c)
    ensures LineCount(Items("    ", values), c) == 0
  {
    if values != [] {
      ItemsAddNone(values[1..], c);
      JsonIsOneLine(values[0], c);
      CountZero("    " + "  - " + Json(values[0]), c);
    }
  }

  lemma RenderAddsNone(key: string, values: seq<string>, c: char)
    requires ListKey(key) && Break(c)
    ensures LineCount(RenderList(key, "    ", values), c) == 0
    ensures Count(RenderList(key, "    ", values)[0], c) == 0
  {
    var rendered := RenderList(key, "    ", values);
    HeadShape(key, values);
    CountZero(rendered[0], c);
    ItemsAddNone(values, c);
    assert rendered[1..] == Items("    ", values);
  }

  lemma CarriedComment(head: string, line: string, hash: nat, c: char)
    requires hash <= |line| && Count(head, c) == 0 && c != ' '
    ensures Count(head + " " + line[hash..], c) <= Count(line, c)
  {
    CountConcat(head + " ", line[hash..], c);
    CountConcat(head, " ", c);
    CountConcat(line[..hash], line[hash..], c);
    assert line == line[..hash] + line[hash..];
  }

  lemma RenderOverAddsNone(line: string, key: string, values: seq<string>, c: char)
    requires ListKey(key) && Break(c)
    ensures LineCount(RenderOver(line, key, "    ", values), c) <= Count(line, c)
  {
    RenderAddsNone(key, values, c);
    var rendered := RenderList(key, "    ", values);
    var hash := HashAt(line, 0);
    if hash < |line| {
      CarriedComment(rendered[0], line, hash, c);
      assert ([rendered[0] + " " + line[hash..]] + rendered[1..])[1..] == rendered[1..];
    }
  }

  lemma SpliceCount(lines: Lines, from: nat, to: nat, r: Lines, c: char)
    requires from <= to <= |lines|
    ensures LineCount(Splice(lines, from, to, r), c)
         == LineCount(lines, c) - LineCount(lines[from..to], c) + LineCount(r, c)
  {
    assert lines == lines[..from] + lines[from..to] + lines[to..];
    LineCountConcat(lines[..from] + lines[from..to], lines[to..], c);
    LineCountConcat(lines[..from], lines[from..to], c);
    LineCountConcat(lines[..from] + r, lines[to..], c);
    LineCountConcat(lines[..from], r, c);
  }

  lemma SetAddsNone(lines: Lines, key: string, values: Option<seq<string>>, c: char)
    requires ListKey(key) && Break(c) && SetOne(lines, key, values).Ok?
    ensures LineCount(SetOne(lines, key, values).value, c) <= LineCount(lines, c)
  {
    if values.Some? {
      match Find(lines, key, "    ")
      case None =>
        var e := Find(lines, "exclude", "  ").value.end;
        RenderAddsNone(key, values.value, c);
        SpliceCount(lines, e, e, RenderList(key, "    ", values.value), c);
      case Some(b) =>
        RenderOverAddsNone(lines[b.at], key, values.value, c);
        SpliceCount(lines, b.at, b.end, RenderOver(lines[b.at], key, "    ", values.value), c);
        assert lines[b.at..b.end][0] == lines[b.at];
    }
  }

  lemma HeaderAddsNone(added: Lines, c: char)
    requires IsHeader(added) && Break(c)
    ensures LineCount(added, c) == 0
  {
    forall k | 0 <= k < |added|
      ensures c !in added[k]
    {
      HeaderWord(added, k, c);
    }
    LineCountZero(added, c);
  }

  lemma HeaderWord(added: Lines, k: nat, c: char)
    requires IsHeader(added) && k < |added| && Break(c)
    ensures c !in added[k]
  {
    assert added[k] == "" || added[k] == "evidence:" || added[k] == "  exclude:";
  }

  lemma EditAddsNone(lines: Lines, lists: Lists, c: char)
    requires Edit(lines, lists).Ok? && Break(c)
    ensures LineCount(Edit(lines, lists).value, c) <= LineCount(lines, c)
  {
    var n, added := HeadersOnlyInserted(lines);
    HeaderAddsNone(added, c);
    SpliceCount(lines, n, n, added, c);
    var l1 := WithHeaders(lines).value;
    SetAddsNone(l1, "docs", lists.docs, c);
    SetAddsNone(SetOne(l1, "docs", lists.docs).value, "cache", lists.cache, c);
  }

  lemma WrittenLines(text: string, lists: Lists, reader: Reader) returns (lines: Lines)
    requires Meaning(text, lists, reader).Ok?
    ensures Edit(ConfigLines(text), lists) == Ok(lines)
    ensures Written(lines, lists, reader) == Ok(TextOf(lines)) == Meaning(text, lists, reader)
    ensures lines != [] && Free(lines, '\n')
  {
    lines := Edit(ConfigLines(text), lists).value;
    EditSettles(ConfigLines(text), lists);
    LinesOfText(text);
    EditAddsNone(ConfigLines(text), lists, '\n');
    LineCountZero(ConfigLines(text), '\n');
    LineCountZero(lines, '\n');
  }

  // ---------------------------------------------------------------- lines that end in CR

  predicate EndsInCr(line: string) { line != "" && line[|line| - 1] == '\r' }

  ghost predicate NoneEndsInCr(lines: Lines) { forall k | 0 <= k < |lines| :: !EndsInCr(lines[k]) }

  /** A written text has a CR LF pair exactly when one of its lines ends in CR. */
  lemma {:induction false} PairInText(lines: Lines)
    requires lines != [] && Free(lines, '\n')
    ensures HasCrLf(TextOf(lines)) <==> !NoneEndsInCr(lines)
  {
    var head, text := lines[0], TextOf(lines);
    assert '\n' !in head;
    if |lines| == 1 {
      assert text == head + "\n";
      if EndsInCr(head) {
        assert CrLfAt(text, |head| - 1);
      }
    } else {
      var rest := lines[1..];
      assert forall k | 0 <= k < |rest| :: rest[k] == lines[k + 1];
      assert NoneEndsInCr(lines) <==> !EndsInCr(head) && NoneEndsInCr(rest);
      PairInText(rest);
      assert text == head + ['\n'] + TextOf(rest);
      PairInJoin(head, TextOf(rest));
    }
  }

  lemma PairInJoin(head: string, rest: string)
    requires '\n' !in head
    ensures HasCrLf(head + ['\n'] + rest) <==> EndsInCr(head) || HasCrLf(rest)
  {
    var text := head + ['\n'] + rest;
    if EndsInCr(head) {
      assert CrLfAt(text, |head| - 1);
    }
    if i: nat :| CrLfAt(rest, i) {
      assert CrLfAt(text, |head| + 1 + i);
    }
    if i: nat :| CrLfAt(text, i) {
      if i > |head| {
        assert CrLfAt(rest, i - |head| - 1);
      }
    }
  }

  lemma {:induction false} ItemsEnd(values: seq<string>)
    ensures NoneEndsInCr(Items("    ", values))
  {
    if values != [] {
      ItemsEnd(values[1..]);
      var item := "    " + "  - " + Json(values[0]);
      assert item[|item| - 1] == '"';
      assert forall k | 1 <= k <= |Items("    ", values[1..])| ::
        Items("    ", values)[k] == Items("    ", values[1..])[k - 1];
    }
  }

  lemma RenderedEnds(key: string, values: seq<string>)
    requires ListKey(key)
    ensures NoneEndsInCr(RenderList(key, "    ", values))
  {
    var rendered := RenderList(key, "    ", values);
    ItemsEnd(values);
    HeadShape(key, values);
    assert rendered[0][|rendered[0]| - 1] == if values == [] then ']' else ':';
    assert forall k | 1 <= k < |rendered| :: rendered[k] == Items("    ", values)[k - 1];
  }

  /** A list as this writer leaves it has no line that ends in CR: a carried comment has no line break. */
  lemma SettledEnds(r: Lines, key: string, values: seq<string>)
    requires ListKey(key) && Settled(r, key, values)
    ensures NoneEndsInCr(r)
  {
    RenderedEnds(key, values);
    CommentOfKeyLine(r[0], key);
    var rendered, hash := RenderList(key, "    ", values), HashAt(r[0], 0);
    if hash < |r[0]| {
      var c := r[0][hash..];
      assert r[0][|r[0]| - 1] == c[|c| - 1];
      assert |c| > 1 ==> c[|c| - 1] in c[1..];
      assert forall k | 0 < k < |r| :: r[k] == rendered[k];
    }
  }

  /** No line from `at` to `end` ends in CR. */
  ghost predicate NoneEndsIn(lines: Lines, at: nat, end: nat)
    requires end <= |lines|
  {
    forall k | at <= k < end :: !EndsInCr(lines[k])
  }

  lemma CutEnds(lines: Lines, at: nat, end: nat)
    requires at <= end <= |lines| && NoneEndsIn(lines, at, end)
    ensures NoneEndsInCr(lines) <==> NoneEndsInCr(Cut(lines, at, end))
  {
    var cut := Cut(lines, at, end);
    assert forall k | 0 <= k < |lines| && !(at <= k < end) :: lines[k] == cut[if k < at then k else k - end + at];
    assert forall k | 0 <= k < |cut| :: cut[k] == lines[if k < at then k else k + end - at];
  }

  /** The lines of another list are still there when one list is cut out. */
  lemma OtherEnds(lines: Lines, at: nat, end: nat, at': nat, end': nat, m: nat)
    requires at <= end <= |lines| && at' <= end' <= |lines| && NoneEndsIn(lines, at', end')
    requires (end <= at' && m == end - at) || (end' <= at && m == 0)
    ensures NoneEndsIn(Cut(lines, at, end), at' - m, end' - m)
  {
    var cut := Cut(lines, at, end);
    assert forall k | at' - m <= k < end' - m :: cut[k] == lines[k + m];
  }

  lemma SliceEnds(lines: Lines, at: nat, end: nat, r: Lines)
    requires at <= end <= |lines| && r == lines[at..end] && NoneEndsInCr(r)
    ensures NoneEndsIn(lines, at, end)
  {
    assert forall k | at <= k < end :: lines[k] == r[k - at];
  }

  lemma FoundPlace(lines: Lines, key: string, b: KeyBlock)
    requires Find(lines, key, "    ") == Some(b)
    ensures b.at < b.end <= |lines|
  {
    FoundIsBlock(lines, key, "    ", b);
  }

  lemma HeldSlice(lines: Lines, key: string, values: seq<string>) returns (b: KeyBlock, r: Lines)
    requires ListKey(key) && Holds(lines, key, values)
    ensures Find(lines, key, "    ") == Some(b) && b.at < b.end <= |lines|
    ensures r == lines[b.at..b.end] && NoneEndsInCr(r)
  {
    b := Find(lines, key, "    ").value;
    FoundPlace(lines, key, b);
    r := lines[b.at..b.end];
    SettledEnds(r, key, values);
  }

  lemma OtherFound(lines: Lines, key: string, b: KeyBlock, key': string, b': KeyBlock)
    requires ListKey(key) && ListKey(key') && key != key'
    requires Find(lines, key, "    ") == Some(b) && Find(lines, key', "    ") == Some(b')
    ensures b.at < b.end <= |lines| && b'.at < b'.end <= |lines| && (b.end <= b'.at || b'.end <= b.at)
    ensures b.end <= b'.at ==> Find(Cut(lines, b.at, b.end), key', "    ") == Some(Moved(b', b.at, b.end, 0))
    ensures b'.end <= b.at ==> Find(Cut(lines, b.at, b.end), key', "    ") == Some(b')
  {
    FoundIsBlock(lines, key, "    ", b);
    FoundIsBlock(lines, key', "    ", b');
    CutKeepsOther(lines, key, b, key', b');
  }

  lemma OtherStays(lines: Lines, key: string, b: KeyBlock, key': string, b': KeyBlock, cut: Lines) returns (m: KeyBlock)
    requires ListKey(key) && ListKey(key') && key != key'
    requires Find(lines, key, "    ") == Some(b) && Find(lines, key', "    ") == Some(b')
    requires b.at < b.end <= |lines| && cut == Cut(lines, b.at, b.end)
    requires b'.at < b'.end <= |lines| && NoneEndsIn(lines, b'.at, b'.end)
    ensures Find(cut, key', "    ") == Some(m) && m.at < m.end <= |cut| && NoneEndsIn(cut, m.at, m.end)
  {
    OtherFound(lines, key, b, key', b');
    if b.end <= b'.at {
      m := Moved(b', b.at, b.end, 0);
      OtherEnds(lines, b.at, b.end, b'.at, b'.end, b.end - b.at);
    } else {
      m := b';
      OtherEnds(lines, b.at, b.end, b'.at, b'.end, 0);
    }
  }

  lemma FoundCutEnds(lines: Lines, key: string, b: KeyBlock)
    requires Find(lines, key, "    ") == Some(b) && b.at < b.end <= |lines| && NoneEndsIn(lines, b.at, b.end)
    ensures NoneEndsInCr(lines) <==> NoneEndsInCr(Without(lines, key))
    ensures Without(lines, key) == Cut(lines, b.at, b.end)
  {
    CutEnds(lines, b.at, b.end);
  }

  lemma BothCutsEnd(lines: Lines, key: string, b: KeyBlock, key': string, b': KeyBlock)
    requires ListKey(key) && ListKey(key') && key != key'
    requires Find(lines, key, "    ") == Some(b) && b.at < b.end <= |lines| && NoneEndsIn(lines, b.at, b.end)
    requires Find(lines, key', "    ") == Some(b') && b'.at < b'.end <= |lines| && NoneEndsIn(lines, b'.at, b'.end)
    ensures NoneEndsInCr(lines) <==> NoneEndsInCr(Without(Without(lines, key), key'))
  {
    FoundCutEnds(lines, key, b);
    var m := OtherStays(lines, key, b, key', b', Without(lines, key));
    FoundCutEnds(Without(lines, key), key', m);
  }

  /** A list that stands in the document as this writer leaves it decides nothing about CR. */
  lemma WithoutEnds(lines: Lines, key: string, values: seq<string>)
    requires ListKey(key) && Holds(lines, key, values)
    ensures NoneEndsInCr(lines) <==> NoneEndsInCr(Without(lines, key))
  {
    var b, r := HeldSlice(lines, key, values);
    SliceEnds(lines, b.at, b.end, r);
    FoundCutEnds(lines, key, b);
  }

  /** Nor do two of them. */
  lemma WithoutBothEnds(lines: Lines, key: string, values: seq<string>, key': string, values': seq<string>)
    requires ListKey(key) && ListKey(key') && key != key'
    requires Holds(lines, key, values) && Holds(lines, key', values')
    ensures NoneEndsInCr(lines) <==> NoneEndsInCr(Without(Without(lines, key), key'))
  {
    var b, r := HeldSlice(lines, key, values);
    var b', r' := HeldSlice(lines, key', values');
    SliceEnds(lines, b.at, b.end, r);
    SliceEnds(lines, b'.at, b'.end, r');
    BothCutsEnd(lines, key, b, key', b');
  }

  lemma RestEnds(lines: Lines, lists: Lists)
    requires HoldsRequested(lines, "docs", lists.docs) && HoldsRequested(lines, "cache", lists.cache)
    ensures NoneEndsInCr(lines) <==> NoneEndsInCr(Rest(lines, lists))
  {
    match (lists.docs, lists.cache)
    case (None, None) =>
    case (Some(docs), None) => WithoutEnds(lines, "docs", docs);
    case (None, Some(cache)) => WithoutEnds(lines, "cache", cache);
    case (Some(docs), Some(cache)) => WithoutBothEnds(lines, "docs", docs, "cache", cache);
  }

  lemma HeaderEnds(lines: Lines, n: nat, added: Lines)
    requires n <= |lines| && IsHeader(added)
    ensures NoneEndsInCr(Splice(lines, n, n, added)) <==> NoneEndsInCr(lines)
  {
    var after := Splice(lines, n, n, added);
    assert NoneEndsInCr(added);
    assert forall k | n <= k < n + |added| :: after[k] == added[k - n];
    CutEnds(after, n, n + |added|);
    CutPlaced(lines, n, n, added);
  }

  /** The document an edit writes has a line ending in CR exactly when the edit keeps one. */
  lemma EditEnds(lines: Lines, lists: Lists)
    requires Edit(lines, lists).Ok?
    ensures NoneEndsInCr(Edit(lines, lists).value) <==> NoneEndsInCr(Rest(lines, lists))
  {
    EditSettles(lines, lists);
    RestEnds(Edit(lines, lists).value, lists);
    var n, added := EditKeepsTheRest(lines, lists);
    HeaderEnds(Rest(lines, lists), n, added);
  }

  // ---------------------------------------------------------------- the second call

  /** The second call is a no-op exactly when the written text has no CR LF pair. */
  lemma RepeatOnWritten(text: string, lists: Lists, reader: Reader)
    requires Meaning(text, lists, reader).Ok?
    ensures var written := Meaning(text, lists, reader).value;
      Meaning(written, lists, reader) == Ok(written) <==> !HasCrLf(written)
  {
    var lines := WrittenLines(text, lists, reader);
    var written := TextOf(lines);
    EditIsIdempotent(ConfigLines(text), lists);
    if HasCrLf(written) {
      var read := ConfigLines(written);
      LinesOfText(written);
      UnixDrops(written);
      CountOfText(lines, '\r');
      if Meaning(written, lists, reader).Ok? {
        var again := WrittenLines(written, lists, reader);
        EditAddsNone(read, lists, '\r');
        CountOfText(again, '\r');
        assert TextOf(again) != written;
      }
    } else {
      TextReadsBack(lines);
    }
  }

  /**
   * Asking for the same lists again is a no-op exactly when no line of the given document outside the requested lists
   * ends in CR. (A line of the document ends in CR when the text has a lone CR at its end, or CR CR LF somewhere.)
   */
  lemma RepeatIsNoOp(text: string, lists: Lists, reader: Reader)
    requires Meaning(text, lists, reader).Ok?
    ensures var written := Meaning(text, lists, reader).value;
      Meaning(written, lists, reader) == Ok(written) <==> NoneEndsInCr(Rest(ConfigLines(text), lists))
  {
    RepeatOnWritten(text, lists, reader);
    var lines := WrittenLines(text, lists, reader);
    PairInText(lines);
    EditEnds(ConfigLines(text), lists);
  }

  lemma RestKeepsEnds(lines: Lines, key: string)
    requires NoneEndsInCr(lines) && ListKey(key)
    ensures NoneEndsInCr(Without(lines, key))
  {
    if Find(lines, key, "    ").Some? {
      var b := Find(lines, key, "    ").value;
      FoundIsBlock(lines, key, "    ", b);
      CutEnds(lines, b.at, b.end);
    }
  }

  /** When no line of the first document ends in CR, the second call is a no-op. */
  lemma RepeatIsNoOpWithoutCr(text: string, lists: Lists, reader: Reader)
    requires Meaning(text, lists, reader).Ok? && NoneEndsInCr(ConfigLines(text))
    ensures var written := Meaning(text, lists, reader);
      Meaning(written.value, lists, reader) == written
  {
    var lines := ConfigLines(text);
    RestKeepsEnds(lines, "docs");
    RestKeepsEnds(lines, "cache");
    RestKeepsEnds(Without(lines, "docs"), "cache");
    RepeatIsNoOp(text, lists, reader);
  }
}
