/** When an `evidence.exclude` edit is refused, told from the document it is given, and what an accepted one writes. */
module ConfigMeaning {
  import opened Text
  import opened ConfigText
  import opened ConfigEdit
  import opened ConfigRest
  import opened ConfigSyntax
  import L = ConfigLoneCr
  import R = ConfigRepeat

  // ---------------------------------------------------------------- a list keeps its lines

  /** Both documents have the same lines for this list, wherever it stands, or neither has it. */
  ghost predicate SameList(l: Lines, l': Lines, key: string) {
    match (Find(l, key, "    "), Find(l', key, "    "))
    case (None, None) => true
    case (Some(b), Some(b')) =>
      && b.at < b.end <= |l| && b'.at < b'.end <= |l'|
      && l[b.at..b.end] == l'[b'.at..b'.end] && b.value == b'.value
    case _ => false
  }

  lemma SplicedList(lines: Lines, from: nat, to: nat, r: Lines, key: string, b: KeyBlock)
    requires ListKey(key) && Find(lines, key, "    ") == Some(b) && from <= to <= |lines|
    requires b.end <= from || to <= b.at
    requires to <= b.at ==> NoOwner(r, key, "    ")
    requires b.end <= from ==> Closed(r + lines[to..], 4)
    ensures SameList(lines, Splice(lines, from, to, r), key)
  {
    FoundIsBlock(lines, key, "    ", b);
    if to <= b.at {
      BlockAfter(lines, key, "    ", b, from, to, r);
      BlockIsFound(Splice(lines, from, to, r), key, "    ", Moved(b, from, to, |r|));
    } else {
      BlockBefore(lines, key, "    ", b, from, to, r);
      BlockIsFound(Splice(lines, from, to, r), key, "    ", b);
    }
  }

  lemma SplicedAbsent(lines: Lines, from: nat, to: nat, r: Lines, key: string)
    requires Find(lines, key, "    ") == None && from <= to <= |lines| && NoOwner(r, key, "    ")
    ensures Find(Splice(lines, from, to, r), key, "    ") == None
  {
    NoEarlierOwner(lines, key, "    ", |lines|);
    var after := Splice(lines, from, to, r);
    forall k | 0 <= k < |after|
      ensures !Owns(after[k], key, "    ")
    {
      if k < from {
        assert after[k] == lines[..|lines|][k];
      } else if k < from + |r| {
        assert after[k] == r[k - from];
      } else {
        assert after[k] == lines[..|lines|][k - |r| - from + to];
      }
    }
  }

  lemma HeadersKeepList(lines: Lines, n: nat, added: Lines, headed: Lines, key: string)
    requires ListKey(key) && Headed(lines, n, added, headed)
    ensures SameList(lines, headed, key)
  {
    HeaderOwnsNoList(added, key);
    match Find(lines, key, "    ") {
      case None =>
        SplicedAbsent(lines, n, n, added, key);
      case Some(b) =>
        if added == [] {
          InsertedNothing(lines, n);
          FoundIsBlock(lines, key, "    ", b);
        } else {
          HeadersOutside(lines, n, 0, key, b);
          HeaderClosed(added, lines[n..]);
          SplicedList(lines, n, n, added, key, b);
        }
    }
  }

  lemma StepOutside(lines: Lines, key: string, values: seq<string>, from: nat, to: nat, r: Lines, after: Lines,
                    key': string, b': KeyBlock)
    requires ListKey(key) && ListKey(key') && key != key' && Step(lines, key, values, from, to, r, after)
    requires Find(lines, key', "    ") == Some(b')
    ensures b'.end <= from || to <= b'.at
  {
    match Find(lines, key, "    ") {
      case Some(b) =>
        FoundIsBlock(lines, key, "    ", b);
        FoundIsBlock(lines, key', "    ", b');
        Disjoint(lines, key, b.at, b.end, key', b'.at, b'.end);
      case None =>
        HeadersOutside(lines, from, 2, key', b');
    }
  }

  lemma StepKeepsList(lines: Lines, key: string, values: seq<string>, from: nat, to: nat, r: Lines, after: Lines,
                      key': string)
    requires ListKey(key) && ListKey(key') && key != key' && Step(lines, key, values, from, to, r, after)
    ensures SameList(lines, after, key')
  {
    SettledShape(r, key, values);
    ListLinesOwn(r, key, key', "    ");
    match Find(lines, key', "    ") {
      case None =>
        SplicedAbsent(lines, from, to, r, key');
      case Some(b') =>
        StepOutside(lines, key, values, from, to, r, after, key', b');
        assert (r + lines[to..])[0] == r[0];
        SplicedList(lines, from, to, r, key', b');
    }
  }

  // ---------------------------------------------------------------- why an edit is refused

  /** The first line with the key holds something. */
  ghost predicate InlineHeader(lines: Lines, key: string, indent: string) {
    exists at: nat, rest, value :: FirstKeyLine(lines, key, indent, at) && KeyLine(lines[at], key, indent, rest)
                                   && Says(rest, value) && value != ""
  }

  /** The list is written behind its key, and is not `[]`. */
  ghost predicate InlineList(lines: Lines, key: string) {
    exists at: nat, rest, value ::
      FirstKeyLine(lines, key, "    ", at) && KeyLine(lines[at], key, "    ", rest)
      && Says(rest, value) && value != "" && value != "[]"
  }

  /** Below the key there is a line that is neither blank nor an item. */
  ghost predicate MixedList(lines: Lines, key: string) {
    exists at: nat, end: nat, k: nat ::
      BlockAt(lines, key, "    ", at, end) && at < k < end && !AllSpace(lines[k]) && !ItemLine(lines[k])
  }

  ghost function ListRefusal(lines: Lines, key: string): Option<Refusal> {
    if InlineList(lines, key) then Some(ListInline(key))
    else if MixedList(lines, key) then Some(NotAList(key))
    else None
  }

  lemma HeldBy(lines: Lines, key: string, indent: string, at: nat)
    requires FirstKeyLine(lines, key, indent, at)
    ensures exists rest :: KeyLine(lines[at], key, indent, rest) && Says(rest, ValueOf(lines[at], key, indent))
    ensures forall rest, value | KeyLine(lines[at], key, indent, rest) && Says(rest, value) ::
              value == ValueOf(lines[at], key, indent)
  {
    var rest :| KeyLine(lines[at], key, indent, rest);
    SaysIs(lines[at], key, indent, rest);
    forall other, value | KeyLine(lines[at], key, indent, other) && Says(other, value)
      ensures value == ValueOf(lines[at], key, indent)
    {
      SaysIs(lines[at], key, indent, other);
    }
  }

  lemma InlineHeaderIs(lines: Lines, key: string, indent: string)
    ensures InlineHeader(lines, key, indent) <==>
              match Find(lines, key, indent) case None => false case Some(b) => b.value != ""
  {
    var first := FirstOwner(lines, key, indent, 0);
    FirstKeyLineIs(lines, key, indent, first);
    if FirstKeyLine(lines, key, indent, first) {
      HeldBy(lines, key, indent, first);
    }
    forall at: nat | FirstKeyLine(lines, key, indent, at)
      ensures at == first
    {
      FirstKeyLineIs(lines, key, indent, at);
    }
  }

  lemma InlineListIs(lines: Lines, key: string)
    ensures InlineList(lines, key) <==>
              match Find(lines, key, "    ") case None => false case Some(b) => !Replaceable(b.value)
  {
    var first := FirstOwner(lines, key, "    ", 0);
    FirstKeyLineIs(lines, key, "    ", first);
    if FirstKeyLine(lines, key, "    ", first) {
      HeldBy(lines, key, "    ", first);
    }
    forall at: nat | FirstKeyLine(lines, key, "    ", at)
      ensures at == first
    {
      FirstKeyLineIs(lines, key, "    ", at);
    }
  }

  lemma MixedListIs(lines: Lines, key: string)
    ensures MixedList(lines, key) <==>
              match Find(lines, key, "    ")
              case None => false
              case Some(b) => b.end <= |lines| && !PlainList(lines, b.at + 1, b.end)
  {
    forall at: nat, end: nat
      ensures BlockAt(lines, key, "    ", at, end) <==> FoundAt(lines, key, "    ", at, end)
    {
      BlockAtIs(lines, key, "    ", at, end);
    }
    forall k | 0 <= k < |lines|
      ensures Blank(lines[k]) || IsItem(lines[k]) <==> AllSpace(lines[k]) || ItemLine(lines[k])
    {
      DeeperIs(lines[k], 0);
      ItemLineIs(lines[k]);
    }
    if Find(lines, key, "    ").Some? {
      var b := Find(lines, key, "    ").value;
      FoundIsBlock(lines, key, "    ", b);
      assert FoundAt(lines, key, "    ", b.at, b.end);
    }
  }

  lemma SameRefusal(l: Lines, l': Lines, key: string)
    requires SameList(l, l', key)
    ensures ListRefusal(l, key) == ListRefusal(l', key)
  {
    InlineListIs(l, key);
    InlineListIs(l', key);
    MixedListIs(l, key);
    MixedListIs(l', key);
    if Find(l, key, "    ").Some? {
      var b, b' := Find(l, key, "    ").value, Find(l', key, "    ").value;
      PlainSlice(l, b.at, b.end);
      PlainSlice(l', b'.at, b'.end);
    }
  }

  lemma PlainSlice(lines: Lines, at: nat, end: nat)
    requires at < end <= |lines|
    ensures PlainList(lines, at + 1, end) <==> PlainList(lines[at..end], 1, end - at)
  {
    var r := lines[at..end];
    forall k | 0 < k < end - at
      ensures r[k] == lines[at + k]
    {
    }
    if PlainList(r, 1, end - at) {
      forall k | at < k < end
        ensures Blank(lines[k]) || IsItem(lines[k])
      {
        assert r[k - at] == lines[k];
      }
    }
  }

  lemma SetListRefusal(lines: Lines, end: nat, key: string, values: seq<string>)
    requires ListKey(key) && end <= |lines|
    ensures SetList(lines, end, key, values).Err? <==> ListRefusal(lines, key).Some?
    ensures SetList(lines, end, key, values).Err? ==>
              SetList(lines, end, key, values).error == ListRefusal(lines, key).value
  {
    InlineListIs(lines, key);
    MixedListIs(lines, key);
    if Find(lines, key, "    ").Some? {
      FoundIsBlock(lines, key, "    ", Find(lines, key, "    ").value);
    }
  }

  lemma SetRefusal(lines: Lines, key: string, values: Option<seq<string>>)
    requires ListKey(key) && Ready(lines)
    ensures SetOne(lines, key, values).Err? <==> values.Some? && ListRefusal(lines, key).Some?
    ensures SetOne(lines, key, values).Err? ==> SetOne(lines, key, values).error == ListRefusal(lines, key).value
  {
    if values.Some? {
      var x := Find(lines, "exclude", "  ").value;
      FoundIsBlock(lines, "exclude", "  ", x);
      SetListRefusal(lines, x.end, key, values.value);
    }
  }

  lemma SetKeepsList(lines: Lines, key: string, values: Option<seq<string>>, key': string)
    requires ListKey(key) && ListKey(key') && key != key' && SetOne(lines, key, values).Ok?
    ensures SameList(lines, SetOne(lines, key, values).value, key')
  {
    if values.Some? {
      var after := SetOne(lines, key, values).value;
      var from, to, r := ListStep(lines, key, values.value, after);
      StepKeepsList(lines, key, values.value, from, to, r, after, key');
    } else if Find(lines, key', "    ").Some? {
      FoundIsBlock(lines, key', "    ", Find(lines, key', "    ").value);
    }
  }

  /** `exclude:` behind a document that has it is not looked at. */
  lemma ExcludeBehind(lines: Lines)
    requires Find(lines, "evidence", "") == None
    ensures InlineHeader(WithEvidence(lines), "exclude", "  ") <==> InlineHeader(lines, "exclude", "  ")
  {
    var after := WithEvidence(lines);
    InlineHeaderIs(lines, "exclude", "  ");
    InlineHeaderIs(after, "exclude", "  ");
    var first := FirstOwner(lines, "exclude", "  ", 0);
    assert forall k | 0 <= k < |lines| :: after[k] == lines[k];
    if first < |lines| {
      assert FirstOwner(after, "exclude", "  ", 0) == first;
    } else {
      AppendedExclude(lines);
    }
  }

  lemma AppendedExclude(lines: Lines)
    requires Find(lines, "evidence", "") == None && Find(lines, "exclude", "  ") == None
    ensures Opens(WithEvidence(lines), "exclude", "  ")
  {
    var after := WithEvidence(lines);
    var at := |after| - 1;
    NoEarlierOwner(lines, "exclude", "  ", |lines|);
    assert lines[..|lines|] == lines;
    assert after[at] == "  exclude:" && after[at - 1] == "evidence:";
    assert after[..at] == lines + ["evidence:"] || after[..at] == lines + ["", "evidence:"];
    assert "evidence:"[0] == 'e' && "  exclude:"[0] == ' ';
    FirstOwnerIs(after, "exclude", "  ", at);
    assert Trim("") == "";
  }

  lemma HeaderRefusal(lines: Lines)
    ensures WithHeaders(lines).Err? <==> InlineHeader(lines, "evidence", "") || InlineHeader(lines, "exclude", "  ")
    ensures InlineHeader(lines, "evidence", "") ==> WithHeaders(lines) == Err(EvidenceInline)
    ensures WithHeaders(lines).Err? && !InlineHeader(lines, "evidence", "") ==>
              WithHeaders(lines).error == ExcludeInline
  {
    InlineHeaderIs(lines, "evidence", "");
    InlineHeaderIs(lines, "exclude", "  ");
    HeadersReady(lines);
    if Find(lines, "evidence", "").None? {
      ExcludeBehind(lines);
      InlineHeaderIs(WithEvidence(lines), "exclude", "  ");
      EvidenceAdded(lines);
    }
  }

  /** Why an edit is refused, told from the document it is given: the causes are tried in this order. */
  ghost function RefusalOf(lines: Lines, lists: Lists): Option<Refusal> {
    if InlineHeader(lines, "evidence", "") then Some(EvidenceInline)
    else if InlineHeader(lines, "exclude", "  ") then Some(ExcludeInline)
    else if lists.docs.Some? && ListRefusal(lines, "docs").Some? then ListRefusal(lines, "docs")
    else if lists.cache.Some? then ListRefusal(lines, "cache")
    else None
  }

  /**
   * Exactly when an edit is refused. The lines the edit adds on the way never cause a refusal and never hide one: it
   * is the given document that has something behind `evidence:` or `exclude:`, or a requested list written behind its
   * key, or a requested list with a line that is no item.
   */
  lemma WhenAnEditIsRefused(lines: Lines, lists: Lists)
    ensures Edit(lines, lists).Ok? <==> RefusalOf(lines, lists) == None
    ensures Edit(lines, lists).Err? ==> RefusalOf(lines, lists) == Some(Edit(lines, lists).error)
  {
    HeaderRefusal(lines);
    if WithHeaders(lines).Ok? {
      HeadersReady(lines);
      var l1 := WithHeaders(lines).value;
      var n, added := HeadersOnlyInserted(lines);
      HeadersKeepList(lines, n, added, l1, "docs");
      HeadersKeepList(lines, n, added, l1, "cache");
      SameRefusal(lines, l1, "docs");
      SameRefusal(lines, l1, "cache");
      SetRefusal(l1, "docs", lists.docs);
      if SetOne(l1, "docs", lists.docs).Ok? {
        var l2 := SetOne(l1, "docs", lists.docs).value;
        SetOneKeeps(l1, "docs", lists.docs, "cache", None);
        SetKeepsList(l1, "docs", lists.docs, "cache");
        SameRefusal(l1, l2, "cache");
        SetRefusal(l2, "cache", lists.cache);
      }
    }
  }

  // ---------------------------------------------------------------- what an accepted edit writes

  /** The value of a hexadecimal digit. */
  function HexValue(c: char): Option<nat> {
    if '0' <= c <= '9' then Some(c as int - '0' as int)
    else if 'a' <= c <= 'f' then Some(c as int - 'a' as int + 10)
    else if 'A' <= c <= 'F' then Some(c as int - 'A' as int + 10)
    else None
  }

  function Hex4(s: string): Option<char>
    requires |s| == 4
  {
    match (HexValue(s[0]), HexValue(s[1]), HexValue(s[2]), HexValue(s[3]))
    case (Some(a), Some(b), Some(c), Some(d)) =>
      var u := ((a * 16 + b) * 16 + c) * 16 + d;
      if u < 0xD800 || 0xE000 <= u < 0x10000 then Some(u as char) else None
    case _ => None
  }

  /** The character a JSON string goes on with, and what follows it. */
  function ReadChar(s: string): (r: Option<(char, string)>)
    ensures r.Some? ==> |r.value.1| < |s|
  {
    if s == "" || s[0] == '"' || s[0] as int < 0x20 then None
    else if s[0] != '\\' then Some((s[0], s[1..]))
    else if |s| == 1 then None
    else if s[1] == '"' || s[1] == '\\' || s[1] == '/' then Some((s[1], s[2..]))
    else if s[1] == 'b' then Some((8 as char, s[2..]))
    else if s[1] == 'f' then Some((12 as char, s[2..]))
    else if s[1] == 'n' then Some(('\n', s[2..]))
    else if s[1] == 'r' then Some(('\r', s[2..]))
    else if s[1] == 't' then Some(('\t', s[2..]))
    else if s[1] == 'u' && |s| >= 6 then
      match Hex4(s[2..6])
      case Some(c) => Some((c, s[6..]))
      case None => None
    else None
  }

  /** What a reader makes of a JSON string behind its first quote. */
  function ReadRest(s: string): Option<string>
    decreases |s|
  {
    if s == "\"" then Some("")
    else
      match ReadChar(s)
      case None => None
      case Some((c, rest)) =>
        match ReadRest(rest)
        case None => None
        case Some(more) => Some([c] + more)
  }

  function ReadJson(s: string): Option<string> { if s != "" && s[0] == '"' then ReadRest(s[1..]) else None }

  lemma JsonCharReadsBack(c: char, rest: string)
    ensures ReadChar(JsonChar(c) + rest) == Some((c, rest))
  {
    var u := c as int;
    var s := JsonChar(c) + rest;
    if u < 0x20 && u !in {8, 9, 10, 12, 13} {
      assert JsonChar(c) == "\\u00" + [HexDigit(u / 16), HexDigit(u % 16)];
      HexReadsBack(c);
      assert s[2..6] == "00" + [HexDigit(u / 16), HexDigit(u % 16)] && s[6..] == rest;
    } else if |JsonChar(c)| == 2 {
      assert s[2..] == rest;
    } else {
      assert s[1..] == rest;
    }
  }

  lemma HexReadsBack(c: char)
    requires c as int < 0x20
    ensures Hex4("00" + [HexDigit(c as int / 16), HexDigit(c as int % 16)]) == Some(c)
  {
    var u := c as int;
    assert HexValue(HexDigit(u / 16)) == Some(u / 16) && HexValue(HexDigit(u % 16)) == Some(u % 16);
  }

  lemma {:induction false} JsonCharsReadBack(value: string)
    ensures ReadRest(JsonChars(value) + "\"") == Some(value)
  {
    if value == "" {
      assert JsonChars(value) + "\"" == "\"";
    } else {
      var rest := JsonChars(value[1..]) + "\"";
      JsonCharsReadBack(value[1..]);
      JsonCharReadsBack(value[0], rest);
      var s := JsonChars(value) + "\"";
      assert s == JsonChar(value[0]) + rest;
      assert rest != "" && s != "\"";
      assert value == [value[0]] + value[1..];
    }
  }

  /** A JSON reader gets every value back. */
  lemma JsonReadsBack(value: string)
    ensures ReadJson(Json(value)) == Some(value)
  {
    JsonCharsReadBack(value);
    assert Json(value)[1..] == JsonChars(value) + "\"";
  }

  /** The line is the key of a list and holds this value besides a comment. */
  ghost predicate KeyLineSays(line: string, key: string, value: string) {
    exists rest :: KeyLine(line, key, "    ", rest) && Says(rest, value)
  }

  /** The line is an item, and a JSON reader gets the value back from it. */
  ghost predicate ItemSays(line: string, value: string) {
    |line| >= 8 && line[..8] == "      - " && ReadJson(line[8..]) == Some(value)
  }

  lemma ItemsSay(values: seq<string>, k: nat)
    requires k < |values|
    ensures |Items("    ", values)| == |values| && ItemSays(Items("    ", values)[k], values[k])
  {
    ItemsAt(values, k);
    JsonReadsBack(values[k]);
    assert Items("    ", values)[k] == "      - " + Json(values[k]);
  }

  /** A list with one item line for each value, in order, that a JSON reader gets the value back from. */
  ghost predicate WritesOut(block: Lines, key: string, values: seq<string>) {
    && |block| == |values| + 1
    && KeyLineSays(block[0], key, if values == [] then "[]" else "")
    && forall k | 0 <= k < |values| :: ItemSays(block[k + 1], values[k])
  }

  /** The key line of a written list, with the comment it carries. */
  function KeyText(key: string, values: seq<string>, comment: string): string {
    WithComment("    " + key + ":" + (if values == [] then " []" else ""), comment)
  }

  /** The comment of a list: what its key line holds from the first `#` on. */
  ghost predicate CommentWas(lines: Lines, key: string, comment: string) {
    if exists at: nat :: FirstKeyLine(lines, key, "    ", at) then
      exists at: nat, i: nat :: FirstKeyLine(lines, key, "    ", at) && i <= |lines[at]| && '#' !in lines[at][..i]
        && (i < |lines[at]| ==> lines[at][i] == '#') && comment == lines[at][i..]
    else comment == ""
  }

  function OldComment(lines: Lines, key: string): string {
    match Find(lines, key, "    ")
    case None => ""
    case Some(b) => lines[b.at][HashAt(lines[b.at], 0)..]
  }

  lemma OldCommentIs(lines: Lines, key: string)
    ensures CommentWas(lines, key, OldComment(lines, key))
  {
    var first := FirstOwner(lines, key, "    ", 0);
    FirstKeyLineIs(lines, key, "    ", first);
    if first < |lines| {
      var line := lines[first];
      var i := HashAt(line, 0);
      assert '#' !in line[..i];
      assert FirstKeyLine(lines, key, "    ", first) && OldComment(lines, key) == line[i..];
    } else {
      forall at: nat
        ensures !FirstKeyLine(lines, key, "    ", at)
      {
        FirstKeyLineIs(lines, key, "    ", at);
      }
    }
  }

  lemma SameComment(l: Lines, l': Lines, key: string)
    requires SameList(l, l', key)
    ensures OldComment(l, key) == OldComment(l', key)
  {
    if Find(l, key, "    ").Some? {
      var b, b' := Find(l, key, "    ").value, Find(l', key, "    ").value;
      assert l[b.at..b.end][0] == l[b.at] && l'[b'.at..b'.end][0] == l'[b'.at];
    }
  }

  lemma TrimFlow(values: seq<string>)
    ensures Trim(Flow(values)) == if values == [] then "[]" else ""
  {
    assert TrimStart(" []") == "[]";
    assert TrimEnd("[]") == "[]";
    assert Trim("") == "";
  }

  lemma KeyTextSays(key: string, values: seq<string>, c: string)
    requires ListKey(key) && CommentText(c)
    ensures KeyLineSays(KeyText(key, values, c), key, if values == [] then "[]" else "")
  {
    var prefix, rest := "    " + key + ":", WithComment(Flow(values), c);
    var line := KeyText(key, values, c);
    CommentBehind(prefix, Flow(values), c);
    assert line == prefix + rest;
    assert KeyLine(line, key, "    ", rest);
    ValueBeforeComment(Flow(values), c);
    TrimFlow(values);
    KeyLineIs(line, key, "    ");
    SaysIs(line, key, "    ", rest);
  }

  lemma RenderedLists(key: string, values: seq<string>, c: string)
    requires ListKey(key) && CommentText(c)
    ensures WritesOut([KeyText(key, values, c)] + Items("    ", values), key, values)
  {
    KeyTextSays(key, values, c);
    var items := Items("    ", values);
    if values != [] {
      ItemsSay(values, 0);
    }
    forall k | 0 <= k < |values|
      ensures ItemSays(items[k], values[k])
    {
      ItemsSay(values, k);
    }
    KeyThenItems(key, values, KeyText(key, values, c), items);
  }

  lemma KeyThenItems(key: string, values: seq<string>, head: string, items: Lines)
    requires KeyLineSays(head, key, if values == [] then "[]" else "")
    requires |items| == |values| && forall k | 0 <= k < |values| :: ItemSays(items[k], values[k])
    ensures WritesOut([head] + items, key, values)
  {
  }

  lemma RenderedOver(lines: Lines, key: string, values: seq<string>, r: Lines)
    requires ListKey(key) && SetOne(lines, key, Some(values)).Ok?
    requires Find(lines, key, "    ") == None ==> r == RenderList(key, "    ", values)
    requires forall b | Find(lines, key, "    ") == Some(b) && b.at < |lines| ::
               r == RenderOver(lines[b.at], key, "    ", values)
    ensures r == [KeyText(key, values, OldComment(lines, key))] + Items("    ", values)
    ensures CommentText(OldComment(lines, key))
  {
    HeadShape(key, values);
    var c := OldComment(lines, key);
    match Find(lines, key, "    ")
    case None =>
    case Some(b) =>
      FoundIsBlock(lines, key, "    ", b);
      BlockLines(lines, key, b.at, b.end);
      CommentOfKeyLine(lines[b.at], key);
  }

  /** The list is there, written with the comment it had. */
  ghost predicate WrittenOut(lines: Lines, after: Lines, key: string, values: seq<string>) {
    exists at: nat, end: nat, comment :: BlockAt(after, key, "    ", at, end) && WritesOut(after[at..end], key, values)
      && CommentWas(lines, key, comment) && after[at] == KeyText(key, values, comment)
  }

  /** The same, by the search. */
  ghost predicate Has(after: Lines, key: string, values: seq<string>, comment: string) {
    match Find(after, key, "    ")
    case None => false
    case Some(b) =>
      b.at < b.end <= |after| && after[b.at..b.end] == [KeyText(key, values, comment)] + Items("    ", values)
  }

  lemma SetWrites(lines: Lines, key: string, values: seq<string>)
    requires ListKey(key) && SetOne(lines, key, Some(values)).Ok?
    ensures Has(SetOne(lines, key, Some(values)).value, key, values, OldComment(lines, key))
    ensures CommentText(OldComment(lines, key))
  {
    var after := SetOne(lines, key, Some(values)).value;
    var from, to, r := ListStep(lines, key, values, after);
    RenderedOver(lines, key, values, r);
    Placed(lines, from, to, r, key, values);
  }

  lemma HasIsWritten(lines: Lines, after: Lines, key: string, values: seq<string>)
    requires ListKey(key) && Has(after, key, values, OldComment(lines, key)) && CommentText(OldComment(lines, key))
    ensures WrittenOut(lines, after, key, values)
  {
    var b, c := Find(after, key, "    ").value, OldComment(lines, key);
    BlockAtIs(after, key, "    ", b.at, b.end);
    RenderedLists(key, values, c);
    OldCommentIs(lines, key);
    assert after[b.at] == after[b.at..b.end][0];
  }

  lemma HasStays(l: Lines, l': Lines, key: string, values: seq<string>, comment: string)
    requires SameList(l, l', key) && Has(l, key, values, comment)
    ensures Has(l', key, values, comment)
  {
  }

  /**
   * What an accepted edit leaves for each requested list: its key line with the comment it had in the given document,
   * and one item for each value, in order, that a JSON reader gets the value back from.
   */
  lemma WhatAnEditWrites(lines: Lines, lists: Lists)
    requires Edit(lines, lists).Ok?
    ensures lists.docs.Some? ==> WrittenOut(lines, Edit(lines, lists).value, "docs", lists.docs.value)
    ensures lists.cache.Some? ==> WrittenOut(lines, Edit(lines, lists).value, "cache", lists.cache.value)
  {
    var l1 := WithHeaders(lines).value;
    var l2 := SetOne(l1, "docs", lists.docs).value;
    var after := SetOne(l2, "cache", lists.cache).value;
    var n, added := HeadersOnlyInserted(lines);
    if lists.docs.Some? {
      HeadersKeepList(lines, n, added, l1, "docs");
      SameComment(lines, l1, "docs");
      SetWrites(l1, "docs", lists.docs.value);
      SetKeepsList(l2, "cache", lists.cache, "docs");
      HasStays(l2, after, "docs", lists.docs.value, OldComment(lines, "docs"));
      HasIsWritten(lines, after, "docs", lists.docs.value);
    }
    if lists.cache.Some? {
      HeadersKeepList(lines, n, added, l1, "cache");
      SameComment(lines, l1, "cache");
      SetKeepsList(l1, "docs", lists.docs, "cache");
      SameComment(l1, l2, "cache");
      SetWrites(l2, "cache", lists.cache.value);
      HasIsWritten(lines, after, "cache", lists.cache.value);
    }
  }

  /** Where a list goes that the document does not have: to the end of the `exclude` block. */
  lemma WhereANewListGoes(lines: Lines, key: string, values: seq<string>, at: nat, end: nat)
    requires ListKey(key) && forall k | 0 <= k < |lines| :: !IsKeyLine(lines[k], key, "    ")
    requires BlockAt(lines, "exclude", "  ", at, end)
    ensures exists block :: SetOne(lines, key, Some(values)) == Ok(lines[..end] + block + lines[end..])
                            && WritesOut(block, key, values) && block[0] == KeyText(key, values, "")
  {
    BlockAtIs(lines, "exclude", "  ", at, end);
    BlockAtIs(lines, key, "    ", 0, 0);
    RenderedLists(key, values, "");
    HeadShape(key, values);
    assert RenderList(key, "    ", values) == [KeyText(key, values, "")] + Items("    ", values);
  }

  /**
   * Which headers are added: both at the end of a document without `evidence:`, behind a blank line when the last line
   * is indented; `exclude:` at the end of the `evidence` block of a document without it; otherwise none.
   */
  lemma WhichHeadersAreAdded(lines: Lines)
    requires WithHeaders(lines).Ok?
    ensures var headed := WithHeaders(lines).value;
      if forall k | 0 <= k < |lines| :: !IsKeyLine(lines[k], "evidence", "") then
        headed == lines
          + (if lines != [] && lines[|lines| - 1] != "" && IsSpace(lines[|lines| - 1][0]) then [""] else [])
          + ["evidence:", "  exclude:"]
      else if forall k | 0 <= k < |lines| :: !IsKeyLine(lines[k], "exclude", "  ") then
        exists at: nat, end: nat :: BlockAt(lines, "evidence", "", at, end)
          && headed == lines[..end] + ["  exclude:"] + lines[end..]
      else headed == lines
  {
    BlockAtIs(lines, "evidence", "", 0, 0);
    BlockAtIs(lines, "exclude", "  ", 0, 0);
    if Find(lines, "evidence", "").None? {
      EvidenceAdded(lines);
    } else {
      var b := Find(lines, "evidence", "").value;
      FoundIsBlock(lines, "evidence", "", b);
      BlockAtIs(lines, "evidence", "", b.at, b.end);
    }
  }

  // ---------------------------------------------------------------- the texts

  lemma {:induction false} UnixOfLast(line: string)
    requires '\n' !in line
    ensures Unix(line) == line
  {
    if line != "" {
      UnixOfLast(line[1..]);
      assert |line| >= 2 ==> line[1] in line;
      assert line == [line[0]] + line[1..];
    }
  }

  /** Every line but the last without one CR at its end. */
  function StrippedButLast(parts: Lines): Lines
    requires parts != []
  {
    L.Stripped(parts[..|parts| - 1]) + [parts[|parts| - 1]]
  }

  lemma JoinCons(head: string, rest: Lines)
    requires rest != []
    ensures Join([head] + rest, '\n') == head + "\n" + Join(rest, '\n')
  {
    assert ([head] + rest)[1..] == rest;
  }

  lemma {:induction false} UnixOfParts(parts: Lines)
    requires parts != [] && Free(parts, '\n')
    ensures Unix(Join(parts, '\n')) == Join(StrippedButLast(parts), '\n')
    decreases |parts|
  {
    if |parts| == 1 {
      UnixOfLast(parts[0]);
      assert StrippedButLast(parts) == parts;
    } else {
      var rest := parts[1..];
      UnixOfParts(rest);
      L.UnixOfLine(parts[0], Join(rest, '\n'));
      assert parts == [parts[0]] + rest;
      JoinCons(parts[0], rest);
      JoinCons(L.Strip(parts[0]), StrippedButLast(rest));
      assert StrippedButLast(parts) == [L.Strip(parts[0])] + StrippedButLast(rest);
    }
  }

  lemma {:induction false} FreeStripped(parts: Lines)
    requires parts != [] && Free(parts, '\n')
    ensures Free(StrippedButLast(parts), '\n')
  {
    var r := StrippedButLast(parts);
    forall k | 0 <= k < |r|
      ensures '\n' !in r[k]
    {
      assert '\n' !in parts[k];
    }
  }

  /** One CR before each LF dropped, and an empty end left out. */
  function LinesBetween(parts: Lines): Lines
    requires parts != []
  {
    if parts[|parts| - 1] == "" then L.Stripped(parts[..|parts| - 1]) else StrippedButLast(parts)
  }

  /** The lines an edit works on: the text cut at LF, one CR before each LF dropped, a last empty line left out. */
  lemma WhichLinesAreRead(text: string)
    ensures exists parts :: parts != [] && Free(parts, '\n') && text == Join(parts, '\n')
                            && ConfigLines(text) == LinesBetween(parts)
  {
    var parts := Split(text, '\n');
    JoinSplit(text, '\n');
    UnixOfParts(parts);
    FreeStripped(parts);
    SplitJoin(StrippedButLast(parts), '\n');
    if text == "" {
      assert parts == [""] && L.Stripped(parts[..0]) == [];
    } else {
      assert Unix(text) != "" || StrippedButLast(parts) == [""];
    }
    var r := StrippedButLast(parts);
    assert r[|r| - 1] == parts[|parts| - 1] && r[..|r| - 1] == L.Stripped(parts[..|parts| - 1]);
  }

  /** A reader of the text finds every requested list as requested. */
  ghost predicate FindsRequested(reader: Reader, text: string, lists: Lists) {
    exists docs, cache :: reader(text) == Some((docs, cache))
      && (lists.docs.Some? ==> docs == lists.docs.value) && (lists.cache.Some? ==> cache == lists.cache.value)
  }

  lemma WrittenIs(lines: Lines, lists: Lists, reader: Reader, after: string)
    requires lines != []
    ensures ConfigText.Written(lines, lists, reader) == Ok(after) <==>
              after == Join(lines + [""], '\n') && FindsRequested(reader, after, lists)
  {
    R.JoinAppend(lines);
    var text := TextOf(lines);
    if reader(text).Some? {
      var (docs, cache) := reader(text).value;
      assert reader(text) == Some((docs, cache));
    }
  }

  /** When a text is written: the edit is not refused, and a reader of the new text finds what was requested. */
  lemma WhenATextIsWritten(text: string, lists: Lists, reader: Reader, after: string)
    ensures Meaning(text, lists, reader) == Ok(after) <==>
      && RefusalOf(ConfigLines(text), lists) == None && FindsRequested(reader, after, lists)
      && exists lines :: Edit(ConfigLines(text), lists) == Ok(lines) && after == Join(lines + [""], '\n')
  {
    WhenAnEditIsRefused(ConfigLines(text), lists);
    var edit := Edit(ConfigLines(text), lists);
    if edit.Ok? {
      EditSettles(ConfigLines(text), lists);
      WrittenIs(edit.value, lists, reader, after);
    }
  }
}
