/** A document whose last line ends in a lone CR: the second identical edit changes the text the first one wrote. */
module ConfigLoneCr {
  import opened Text
  import opened ConfigText
  import opened ConfigEdit
  import opened ConfigRest
  import opened ConfigRepeat

  // ---------------------------------------------------------------- a reader

  predicate Declares(lines: Lines, key: string) { exists k | 0 <= k < |lines| :: Owns(lines[k], key, "") }

  /** The list a text declares under `docs`: `values` where it is written out so, and none otherwise. */
  function DocsOf(lines: Lines, values: seq<string>): seq<string> {
    match Find(lines, "docs", "    ")
    case None => []
    case Some(b) =>
      if b.at <= b.end <= |lines| && lines[b.at..b.end] == RenderList("docs", "    ", values) then values else []
  }

  function Read(required: seq<string>, values: seq<string>, lines: Lines): Option<(seq<string>, seq<string>)> {
    if forall key | key in required :: Declares(lines, key) then Some((DocsOf(lines, values), [])) else None
  }

  /** A reader that refuses a text without the required top-level keys. */
  function KeyReader(required: seq<string>, values: seq<string>): Reader {
    (text: string) => Read(required, values, ConfigLines(text))
  }

  // ---------------------------------------------------------------- reading a written text back

  function Strip(line: string): string { if EndsInCr(line) then line[..|line| - 1] else line }

  function Stripped(lines: Lines): Lines { seq(|lines|, k requires 0 <= k < |lines| => Strip(lines[k])) }

  lemma {:induction false} UnixOfLine(line: string, rest: string)
    requires '\n' !in line
    ensures Unix(line + "\n" + rest) == Strip(line) + "\n" + Unix(rest)
  {
    var text := line + "\n" + rest;
    if line == "" {
      assert text[1..] == rest;
    } else if line == "\r" {
      assert text[2..] == rest;
    } else {
      assert text[1..] == line[1..] + "\n" + rest;
      UnixOfLine(line[1..], rest);
      assert Strip(line) == [line[0]] + Strip(line[1..]);
      assert !(text[0] == '\r' && text[1] == '\n');
    }
  }

  lemma {:induction false} UnixOfText(lines: Lines)
    requires lines != [] && Free(lines, '\n')
    ensures Unix(TextOf(lines)) == TextOf(Stripped(lines))
  {
    if |lines| == 1 {
      UnixOfLine(lines[0], "");
      assert TextOf(lines) == lines[0] + "\n" + "";
    } else {
      UnixOfText(lines[1..]);
      UnixOfLine(lines[0], TextOf(lines[1..]));
      assert TextOf(lines) == lines[0] + "\n" + TextOf(lines[1..]);
      assert Stripped(lines)[1..] == Stripped(lines[1..]);
      assert TextOf(Stripped(lines)) == Strip(lines[0]) + "\n" + TextOf(Stripped(lines[1..]));
    }
  }

  /** Reading a written text gives its lines, each without one CR at its end. */
  lemma WrittenReadsBack(lines: Lines)
    requires lines != [] && Free(lines, '\n')
    ensures ConfigLines(TextOf(lines)) == Stripped(lines)
  {
    UnixOfText(lines);
    JoinAppend(Stripped(lines));
    SplitJoin(Stripped(lines) + [""], '\n');
    assert (Stripped(lines) + [""])[..|lines|] == Stripped(lines);
  }

  // ---------------------------------------------------------------- a document without the key

  /** No line declares a key this writer looks for. */
  ghost predicate Unexcluded(lines: Lines) {
    && NoOwner(lines, "evidence", "") && NoOwner(lines, "exclude", "  ") && NoOwner(lines, "docs", "    ")
  }

  lemma NotFound(lines: Lines, key: string, indent: string)
    requires NoOwner(lines, key, indent)
    ensures Find(lines, key, indent) == None
  {
  }

  lemma HeaderLines()
    ensures Unexcluded([""])
    ensures !Owns("evidence:", "exclude", "  ") && !Owns("evidence:", "docs", "    ")
    ensures Owns("  exclude:", "exclude", "  ") && !Owns("  exclude:", "docs", "    ")
    ensures ValueOf("  exclude:", "exclude", "  ") == ""
    ensures !Blank("  exclude:") && Depth("  exclude:") == 2
  {
    assert "  " + "exclude" + ":" == "  exclude:" && Trim("") == "";
    assert ("    " + "docs" + ":")[0] == ' ' && ("    " + "docs" + ":")[2] == ' ';
    TrimIndent("  ", "exclude:");
    assert "  " + "exclude:" == "  exclude:";
  }

  /** The document with the two headers: the `exclude` block is its last line. */
  lemma HeadersLast(lines: Lines, headed: Lines)
    requires Unexcluded(lines)
    requires headed == lines + ["evidence:", "  exclude:"] || headed == lines + ["", "evidence:", "  exclude:"]
    ensures Find(headed, "exclude", "  ") == Some(KeyBlock(|headed| - 1, "", |headed|))
    ensures NoOwner(headed, "docs", "    ")
  {
    HeaderLines();
    var at := |headed| - 1;
    forall k | 0 <= k < |headed|
      ensures !Owns(headed[k], "docs", "    ") && (k < at ==> !Owns(headed[k], "exclude", "  "))
    {
      assert k < |lines| ==> headed[k] == lines[k];
      assert k >= |lines| ==> headed[k] == "" || headed[k] == "evidence:" || headed[k] == "  exclude:";
      assert [""][0] == "";
    }
    assert headed[at..] == ["  exclude:"];
    BlockIsFound(headed, "exclude", "  ", KeyBlock(at, "", at + 1));
  }

  lemma EditAppends(lines: Lines, values: seq<string>) returns (headers: Lines)
    requires Unexcluded(lines)
    ensures headers == ["evidence:", "  exclude:"] || headers == ["", "evidence:", "  exclude:"]
    ensures Edit(lines, Lists(Some(values), None)) == Ok(lines + headers + RenderList("docs", "    ", values))
  {
    NotFound(lines, "evidence", "");
    headers := EvidenceInserted(lines);
    InsertedAtEnd(lines, headers);
    HeadersLast(lines, lines + headers);
    EvidenceAdded(lines);
    NotFound(lines + headers, "docs", "    ");
    InsertedAtEnd(lines + headers, RenderList("docs", "    ", values));
  }

  lemma DocsRead(headed: Lines, values: seq<string>)
    requires NoOwner(headed, "docs", "    ")
    ensures DocsOf(headed + RenderList("docs", "    ", values), values) == values
  {
    var r := RenderList("docs", "    ", values);
    RenderFresh("docs", values);
    InsertedAtEnd(headed, r);
    assert headed[..|headed|] == headed;
    Placed(headed, |headed|, |headed|, r, "docs", values);
  }

  lemma NothingStripped(lines: Lines)
    requires NoneEndsInCr(lines)
    ensures Stripped(lines) == lines
  {
  }

  lemma StrippedConcat(a: Lines, b: Lines)
    ensures Stripped(a + b) == Stripped(a) + Stripped(b)
  {
  }

  /** What is read back is the same document with the lone CR gone. */
  lemma LoneCrStripped(head: Lines, last: string, headers: Lines, r: Lines)
    requires NoneEndsInCr(head) && NoneEndsInCr(headers) && NoneEndsInCr(r)
    ensures Stripped(head + [last + "\r"] + headers + r) == head + [last] + headers + r
  {
    StrippedConcat(head + [last + "\r"] + headers, r);
    StrippedConcat(head + [last + "\r"], headers);
    StrippedConcat(head, [last + "\r"]);
    NothingStripped(head);
    NothingStripped(headers);
    NothingStripped(r);
    assert Strip(last + "\r") == last;
  }

  lemma LoneCrAtTheEnd(head: Lines, last: string)
    requires Free(head, '\n') && '\n' !in last && NoneEndsInCr(head)
    ensures ConfigLines(Join(head + [last + "\r"], '\n')) == head + [last + "\r"]
  {
    var lines := head + [last + "\r"];
    var text := Join(lines, '\n');
    NoPairBeforeTheEnd(head, last);
    UnixSame(text);
    SplitJoin(lines, '\n');
    assert text != "";
  }

  lemma {:induction false} NoPairBeforeTheEnd(head: Lines, last: string)
    requires Free(head, '\n') && '\n' !in last && NoneEndsInCr(head)
    ensures !HasCrLf(Join(head + [last + "\r"], '\n')) && Join(head + [last + "\r"], '\n') != ""
  {
    var lines := head + [last + "\r"];
    if head == [] {
      assert lines == [last + "\r"];
      assert forall i: nat :: !CrLfAt(last + "\r", i);
    } else {
      NoPairBeforeTheEnd(head[1..], last);
      assert lines[1..] == head[1..] + [last + "\r"];
      PairInJoin(head[0], Join(lines[1..], '\n'));
    }
  }

  lemma KeysDeclared(required: seq<string>, head: Lines, tail: Lines)
    requires forall key | key in required :: Declares(head, key)
    ensures forall key | key in required :: Declares(head + tail, key)
  {
    forall key | key in required
      ensures Declares(head + tail, key)
    {
      var k :| 0 <= k < |head| && Owns(head[k], key, "");
      assert (head + tail)[k] == head[k];
    }
  }

  lemma ReadsAppended(required: seq<string>, lines: Lines, headers: Lines, values: seq<string>)
    requires Unexcluded(lines) && forall key | key in required :: Declares(lines, key)
    requires headers == ["evidence:", "  exclude:"] || headers == ["", "evidence:", "  exclude:"]
    ensures Read(required, values, lines + headers + RenderList("docs", "    ", values)) == Some((values, []))
  {
    HeadersLast(lines, lines + headers);
    DocsRead(lines + headers, values);
    KeysDeclared(required, lines, headers);
    KeysDeclared(required, lines + headers, RenderList("docs", "    ", values));
  }

  lemma FreeRendered(values: seq<string>)
    ensures Free(RenderList("docs", "    ", values), '\n') && NoneEndsInCr(RenderList("docs", "    ", values))
  {
    RenderedEnds("docs", values);
    RenderAddsNone("docs", values, '\n');
    LineCountZero(RenderList("docs", "    ", values), '\n');
  }

  lemma LoneCrReadsBack(head: Lines, last: string, headers: Lines, r: Lines)
    requires Free(head, '\n') && '\n' !in last && NoneEndsInCr(head)
    requires headers == ["evidence:", "  exclude:"] || headers == ["", "evidence:", "  exclude:"]
    requires Free(r, '\n') && NoneEndsInCr(r)
    ensures ConfigLines(TextOf(head + [last + "\r"] + headers + r)) == head + [last] + headers + r
  {
    var after := head + [last + "\r"] + headers + r;
    assert Free(headers, '\n') && NoneEndsInCr(headers);
    WrittenReadsBack(after);
    LoneCrStripped(head, last, headers, r);
  }

  /**
   * The family of documents that are not settled by one call: the text ends in a lone CR, and the lists are new. The
   * edit is accepted by a reader that demands whatever top-level keys the document has, and asking again changes it.
   */
  lemma RepeatCanChangeTheText(required: seq<string>, head: Lines, last: string, values: seq<string>)
    requires Free(head, '\n') && '\n' !in last && NoneEndsInCr(head)
    requires Unexcluded(head + [last + "\r"]) && Unexcluded(head + [last])
    requires forall key | key in required :: Declares(head, key)
    ensures var lists, reader := Lists(Some(values), None), KeyReader(required, values);
      var written := Meaning(Join(head + [last + "\r"], '\n'), lists, reader);
      written.Ok? && Meaning(written.value, lists, reader) != written
  {
    var lines, text := head + [last + "\r"], Join(head + [last + "\r"], '\n');
    var lists, reader := Lists(Some(values), None), KeyReader(required, values);
    LoneCrAtTheEnd(head, last);
    var headers := EditAppends(lines, values);
    var r := RenderList("docs", "    ", values);
    var after := lines + headers + r;
    KeysDeclared(required, head, [last]);
    ReadsAppended(required, head + [last], headers, values);
    FreeRendered(values);
    LoneCrReadsBack(head, last, headers, r);
    assert Meaning(text, lists, reader) == Ok(TextOf(after));
    NotFound(lines, "docs", "    ");
    assert Rest(lines, lists) == lines;
    assert EndsInCr(lines[|head|]);
    RepeatIsNoOp(text, lists, reader);
  }

  lemma NoExclusionKey(line: string)
    requires |line| >= 3 && line[0] != 'e' && line[2] != 'e' && !(line[0] == ' ' && line[2] == ' ')
    ensures Unexcluded([line])
  {
    assert ("" + "evidence" + ":")[0] == 'e' && ("  " + "exclude" + ":")[2] == 'e';
    assert ("    " + "docs" + ":")[0] == ' ' && ("    " + "docs" + ":")[2] == ' ';
  }

  /** One such text: `policies: p.yml`, `clock:` and `  mode: system`, with a lone CR at the end. */
  lemma ClockExample()
    ensures var lists, reader := Lists(Some(["handbook"]), None), KeyReader(["policies", "clock"], ["handbook"]);
      var written := Meaning(Join(["policies: p.yml", "clock:", "  mode: system\r"], '\n'), lists, reader);
      written.Ok? && Meaning(written.value, lists, reader) != written
  {
    var head, last := ["policies: p.yml", "clock:"], "  mode: system";
    assert last + "\r" == "  mode: system\r";
    assert head + [last + "\r"] == ["policies: p.yml", "clock:", "  mode: system\r"];
    NoExclusionKey(head[0]);
    NoExclusionKey(head[1]);
    NoExclusionKey(last);
    NoExclusionKey(last + "\r");
    UnexcludedJoin(head, last);
    UnexcludedJoin(head, last + "\r");
    assert Owns(head[0], "policies", "") && Owns(head[1], "clock", "");
    RepeatCanChangeTheText(["policies", "clock"], head, last, ["handbook"]);
  }

  lemma UnexcludedJoin(head: Lines, last: string)
    requires |head| == 2 && Unexcluded([head[0]]) && Unexcluded([head[1]]) && Unexcluded([last])
    ensures Unexcluded(head + [last])
  {
    assert [head[0]][0] == head[0] && [head[1]][0] == head[1] && [last][0] == last;
  }
}
