/** Line-level writing of `evidence.exclude` into the owner's configuration text. */
module ConfigText {
  import opened Text

  type Lines = seq<string>

  datatype KeyBlock = KeyBlock(at: nat, value: string, end: nat)

  datatype Refusal = EvidenceInline | ExcludeInline | ListInline(key: string) | NotAList(key: string)
                   | MissingBlock | Unreadable

  // ---------------------------------------------------------------- locating a key

  function Depth(line: string): nat { |line| - |TrimStart(line)| }

  predicate Blank(line: string) { Trim(line) == "" }

  /** A line that does not end a block at this depth. */
  predicate Inside(line: string, depth: nat) { Blank(line) || Depth(line) > depth }

  /** The line declares `key` at exactly this indent. */
  predicate Owns(line: string, key: string, indent: string) {
    var prefix := indent + key + ":";
    prefix <= line && (|line| == |prefix| || line[|prefix|] == ' ' || line[|prefix|] == '\t')
  }

  predicate IsLineBreak(c: char) { c == '\n' || c == '\r' || c as int == 0x2028 || c as int == 0x2029 }

  predicate OneLine(s: string) { forall c | c in s :: !IsLineBreak(c) }

  /** A `#` after white space, with no line break behind it. */
  predicate IsComment(rest: string, j: nat)
    requires j < |rest|
  {
    j > 0 && rest[j] == '#' && IsSpace(rest[j - 1]) && OneLine(rest[j + 1..])
  }

  /** Where the trailing comment starts. */
  function CommentAt(rest: string, j: nat): (r: nat)
    requires j <= |rest|
    ensures j <= r <= |rest|
    ensures r < |rest| ==> IsComment(rest, r)
    ensures forall k | j <= k < r :: !IsComment(rest, k)
    decreases |rest| - j
  {
    if j == |rest| || IsComment(rest, j) then j else CommentAt(rest, j + 1)
  }

  /** What the key line holds besides the key and a trailing comment. */
  function ValueOf(line: string, key: string, indent: string): string {
    var n := |indent + key + ":"|;
    if n <= |line| then
      var rest := line[n..];
      Trim(rest[..CommentAt(rest, 0)])
    else ""
  }

  /** The first line from `from` on that declares the key. */
  function FirstOwner(lines: Lines, key: string, indent: string, from: nat): (i: nat)
    requires from <= |lines|
    ensures from <= i <= |lines|
    ensures forall k | from <= k < i :: !Owns(lines[k], key, indent)
    ensures i < |lines| ==> Owns(lines[i], key, indent)
    decreases |lines| - from
  {
    if from == |lines| || Owns(lines[from], key, indent) then from else FirstOwner(lines, key, indent, from + 1)
  }

  /** The first line from `from` on that is outside the block. */
  function Reach(lines: Lines, depth: nat, from: nat): (e: nat)
    requires from <= |lines|
    ensures from <= e <= |lines|
    ensures forall k | from <= k < e :: Inside(lines[k], depth)
    ensures e < |lines| ==> !Inside(lines[e], depth)
    decreases |lines| - from
  {
    if from == |lines| || !Inside(lines[from], depth) then from
    else Reach(lines, depth, from + 1)
  }

  function DropBlank(lines: Lines, low: nat, end: nat): (e: nat)
    requires low <= end <= |lines|
    ensures low <= e <= end
    ensures forall k | e <= k < end :: Blank(lines[k])
    ensures e > low ==> !Blank(lines[e - 1])
  {
    if end > low && Blank(lines[end - 1]) then DropBlank(lines, low, end - 1) else end
  }

  function Find(lines: Lines, key: string, indent: string): Option<KeyBlock> {
    var at := FirstOwner(lines, key, indent, 0);
    if at == |lines| then None
    else
      Some(KeyBlock(at, ValueOf(lines[at], key, indent),
                    DropBlank(lines, at + 1, Reach(lines, |indent|, at + 1))))
  }

  /** The end of the block that starts at `index`, trailing blank lines left to what comes next. */
  method FindBlockEnd(lines: Lines, index: nat, depth: nat) returns (blockEnd: nat)
    requires index < |lines|
    ensures blockEnd == DropBlank(lines, index + 1, Reach(lines, depth, index + 1))
  {
    var end := index + 1;
    while end < |lines|
      invariant index < end <= |lines|
      invariant Reach(lines, depth, index + 1) == Reach(lines, depth, end)
    {
      if !Blank(lines[end]) && Depth(lines[end]) <= depth { break; }
      end := end + 1;
    }
    blockEnd := end;
    while blockEnd > index + 1 && Blank(lines[blockEnd - 1])
      invariant index + 1 <= blockEnd <= end
      invariant DropBlank(lines, index + 1, end) == DropBlank(lines, index + 1, blockEnd)
    {
      blockEnd := blockEnd - 1;
    }
  }

  method FindKeyBlock(lines: Lines, key: string, indent: string) returns (r: Option<KeyBlock>)
    ensures r == Find(lines, key, indent)
  {
    var prefix := indent + key + ":";
    var index := 0;
    while index < |lines|
      invariant index <= |lines|
      invariant FirstOwner(lines, key, indent, 0) == FirstOwner(lines, key, indent, index)
    {
      var line := lines[index];
      if prefix <= line && (|line| == |prefix| || line[|prefix|] == ' ' || line[|prefix|] == '\t') {
        assert Owns(line, key, indent);
        var end := FindBlockEnd(lines, index, |indent|);
        return Some(KeyBlock(index, ValueOf(line, key, indent), end));
      }
      index := index + 1;
    }
    return None;
  }

  // ---------------------------------------------------------------- rendering a list

  function HexDigit(n: nat): char
    requires n < 16
  {
    if n < 10 then ('0' as int + n) as char else ('a' as int + n - 10) as char
  }

  function JsonChar(c: char): string {
    var u := c as int;
    if c == '"' then "\\\""
    else if c == '\\' then "\\\\"
    else if u == 8 then "\\b"
    else if u == 9 then "\\t"
    else if u == 10 then "\\n"
    else if u == 12 then "\\f"
    else if u == 13 then "\\r"
    else if u < 0x20 then "\\u00" + [HexDigit(u / 16), HexDigit(u % 16)]
    else [c]
  }

  function JsonChars(s: string): string { if s == [] then [] else JsonChar(s[0]) + JsonChars(s[1..]) }

  /** `JSON.stringify` of a string. */
  function Json(s: string): string { "\"" + JsonChars(s) + "\"" }

  function Items(indent: string, values: seq<string>): Lines {
    if values == [] then [] else [indent + "  - " + Json(values[0])] + Items(indent, values[1..])
  }

  function RenderList(key: string, indent: string, values: seq<string>): (r: Lines)
    ensures |r| > 0
  {
    if values == [] then [indent + key + ": []"] else [indent + key + ":"] + Items(indent, values)
  }

  /** `line.indexOf('#', from)`, with the length for "not found". */
  function HashAt(line: string, from: nat): (i: nat)
    requires from <= |line|
    ensures from <= i <= |line|
    ensures forall k | from <= k < i :: line[k] != '#'
    ensures i < |line| ==> line[i] == '#'
    decreases |line| - from
  {
    if from == |line| || line[from] == '#' then from else HashAt(line, from + 1)
  }

  /** The rendered list, with the comment of the key line it replaces. */
  function RenderOver(keyLine: string, key: string, indent: string, values: seq<string>): (r: Lines)
    ensures |r| > 0
  {
    var rendered := RenderList(key, indent, values);
    var hash := HashAt(keyLine, 0);
    if hash == |keyLine| then rendered else [rendered[0] + " " + keyLine[hash..]] + rendered[1..]
  }

  /** A `- ` item. */
  predicate IsItem(line: string) {
    var rest := TrimStart(line);
    |rest| >= 2 && rest[0] == '-' && IsSpace(rest[1])
  }

  // ---------------------------------------------------------------- setting one list

  predicate PlainList(lines: Lines, from: nat, to: nat)
    requires to <= |lines|
  {
    forall k | from <= k < to :: Blank(lines[k]) || IsItem(lines[k])
  }

  method EveryLineIsItem(lines: Lines, from: nat, to: nat) returns (all: bool)
    requires from <= to <= |lines|
    ensures all == PlainList(lines, from, to)
  {
    for k := from to to
      invariant PlainList(lines, from, k)
    {
      if !Blank(lines[k]) && !IsItem(lines[k]) { return false; }
    }
    return true;
  }

  function SetList(lines: Lines, parentEnd: nat, key: string, values: seq<string>): Result<Lines, Refusal>
    requires parentEnd <= |lines|
  {
    match Find(lines, key, "    ")
    case None => Ok(lines[..parentEnd] + RenderList(key, "    ", values) + lines[parentEnd..])
    case Some(existing) =>
      if existing.value != "" && existing.value != "[]" then Err(ListInline(key))
      else if !PlainList(lines, existing.at + 1, existing.end) then Err(NotAList(key))
      else Ok(lines[..existing.at] + RenderOver(lines[existing.at], key, "    ", values) + lines[existing.end..])
  }

  method SetListWithin(lines: Lines, parent: KeyBlock, key: string, values: seq<string>)
    returns (r: Result<Lines, Refusal>)
    requires parent.end <= |lines|
    ensures r == SetList(lines, parent.end, key, values)
  {
    var existing := FindKeyBlock(lines, key, "    ");
    if existing.None? {
      return Ok(lines[..parent.end] + RenderList(key, "    ", values) + lines[parent.end..]);
    }
    var b := existing.value;
    if b.value != "" && b.value != "[]" { return Err(ListInline(key)); }
    var plain := EveryLineIsItem(lines, b.at + 1, b.end);
    if !plain { return Err(NotAList(key)); }
    var keyLine := lines[b.at];
    var rendered := RenderList(key, "    ", values);
    var comment := HashAt(keyLine, 0);
    if comment != |keyLine| { rendered := [rendered[0] + " " + keyLine[comment..]] + rendered[1..]; }
    return Ok(lines[..b.at] + rendered + lines[b.end..]);
  }

  // ---------------------------------------------------------------- the whole edit

  datatype Lists = Lists(docs: Option<seq<string>>, cache: Option<seq<string>>)

  /** The headers `evidence:` and `exclude:` are added where they are missing. */
  function WithEvidence(lines: Lines): Lines {
    if Find(lines, "evidence", "").Some? then lines
    else
      var last := if lines == [] then "" else lines[|lines| - 1];
      lines + (if last != "" && IsSpace(last[0]) then [""] else []) + ["evidence:", "  exclude:"]
  }

  function WithHeaders(lines: Lines): Result<Lines, Refusal> {
    match Find(lines, "evidence", "")
    case Some(b) =>
      if b.value != "" then Err(EvidenceInline) else WithExclude(lines)
    case None => WithExclude(WithEvidence(lines))
  }

  function WithExclude(lines: Lines): Result<Lines, Refusal> {
    match (Find(lines, "evidence", ""), Find(lines, "exclude", "  "))
    case (None, _) => Err(MissingBlock)
    case (Some(_), Some(x)) => if x.value != "" then Err(ExcludeInline) else Ok(lines)
    case (Some(e), None) => Ok(lines[..e.end] + ["  exclude:"] + lines[e.end..])
  }

  function SetOne(lines: Lines, key: string, values: Option<seq<string>>): Result<Lines, Refusal> {
    match values
    case None => Ok(lines)
    case Some(vs) =>
      match Find(lines, "exclude", "  ")
      case None => Err(MissingBlock)
      case Some(x) => SetList(lines, x.end, key, vs)
  }

  function Edit(lines: Lines, lists: Lists): Result<Lines, Refusal> {
    match WithHeaders(lines)
    case Err(e) => Err(e)
    case Ok(l1) =>
      match SetOne(l1, "docs", lists.docs)
      case Err(e) => Err(e)
      case Ok(l2) => SetOne(l2, "cache", lists.cache)
  }

  function Unix(text: string): string {
    if text == [] then []
    else if |text| >= 2 && text[0] == '\r' && text[1] == '\n' then ['\n'] + Unix(text[2..])
    else [text[0]] + Unix(text[1..])
  }

  /** The lines of a text, without a synthetic last one. */
  function ConfigLines(text: string): Lines {
    if text == "" then []
    else
      var parts := Split(Unix(text), '\n');
      if parts[|parts| - 1] == "" then parts[..|parts| - 1] else parts
  }

  function TextOf(lines: Lines): string { Join(lines, '\n') + "\n" }

  /** What a reader of the written text finds under `evidence.exclude`; `None` when it cannot be read. */
  type Reader = string -> Option<(seq<string>, seq<string>)>

  function Written(lines: Lines, lists: Lists, reader: Reader): Result<string, Refusal> {
    match reader(TextOf(lines))
    case None => Err(Unreadable)
    case Some((docs, cache)) =>
      if (lists.docs.Some? && docs != lists.docs.value) || (lists.cache.Some? && cache != lists.cache.value)
      then Err(Unreadable)
      else Ok(TextOf(lines))
  }

  function Meaning(text: string, lists: Lists, reader: Reader): Result<string, Refusal> {
    match Edit(ConfigLines(text), lists)
    case Err(e) => Err(e)
    case Ok(lines) => Written(lines, lists, reader)
  }

  method AddHeaders(before: Lines) returns (r: Result<Lines, Refusal>)
    ensures r == WithHeaders(before)
  {
    var lines := before;
    var evidence := FindKeyBlock(lines, "evidence", "");
    if evidence.Some? && evidence.value.value != "" { return Err(EvidenceInline); }
    if evidence.None? {
      var last := if lines == [] then "" else lines[|lines| - 1];
      var separator := if last != "" && IsSpace(last[0]) then [""] else [];
      lines := lines + separator + ["evidence:", "  exclude:"];
    }
    assert lines == WithEvidence(before);
    var evidenceBlock := FindKeyBlock(lines, "evidence", "");
    if evidenceBlock.None? { return Err(MissingBlock); }
    var excludeBlock := FindKeyBlock(lines, "exclude", "  ");
    if excludeBlock.Some? && excludeBlock.value.value != "" { return Err(ExcludeInline); }
    if excludeBlock.None? {
      var e := evidenceBlock.value.end;
      lines := lines[..e] + ["  exclude:"] + lines[e..];
    }
    return Ok(lines);
  }

  method SetRequested(lines: Lines, key: string, values: Option<seq<string>>) returns (r: Result<Lines, Refusal>)
    ensures r == SetOne(lines, key, values)
  {
    if values.None? { return Ok(lines); }
    var exclude := FindKeyBlock(lines, "exclude", "  ");
    if exclude.None? { return Err(MissingBlock); }
    r := SetListWithin(lines, exclude.value, key, values.value);
  }

  method SetEvidenceExclude(text: string, lists: Lists, reader: Reader) returns (r: Result<string, Refusal>)
    ensures r == Meaning(text, lists, reader)
  {
    var lines := if |text| == 0 then [] else Split(Unix(text), '\n');
    if lines != [] && lines[|lines| - 1] == "" { lines := lines[..|lines| - 1]; }
    assert lines == ConfigLines(text);
    var headed := AddHeaders(lines);
    if headed.Err? { return Err(headed.error); }
    var withDocs := SetRequested(headed.value, "docs", lists.docs);
    if withDocs.Err? { return Err(withDocs.error); }
    var withCache := SetRequested(withDocs.value, "cache", lists.cache);
    if withCache.Err? { return Err(withCache.error); }
    var after := TextOf(withCache.value);
    var parsed := reader(after);
    if parsed.None? { return Err(Unreadable); }
    if lists.docs.Some? && parsed.value.0 != lists.docs.value { return Err(Unreadable); }
    if lists.cache.Some? && parsed.value.1 != lists.cache.value { return Err(Unreadable); }
    return Ok(after);
  }
}
