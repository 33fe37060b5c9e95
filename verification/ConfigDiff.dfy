/** The one-hunk diff printed for a configuration edit, and what a patch reader makes of it. */
module ConfigDiff {
  import opened Text
  import opened ConfigText
  import ConfigRepeat

  /** How many lines from `p` on are the same, counted from the start. */
  function SameFrom(a: Lines, b: Lines, p: nat): (r: nat)
    requires p <= |a| && p <= |b|
    ensures p <= r <= |a| && r <= |b|
    ensures forall k | p <= k < r :: a[k] == b[k]
    ensures r < |a| && r < |b| ==> a[r] != b[r]
    decreases |a| - p
  {
    if p < |a| && p < |b| && a[p] == b[p] then SameFrom(a, b, p + 1) else p
  }

  /** The line `k` lines before the last. */
  function FromEnd(a: Lines, k: nat): string
    requires k < |a|
  {
    a[|a| - 1 - k]
  }

  /** How many lines beyond the last `s` are the same, counted from the end and without touching the first `p`. */
  function SameTo(a: Lines, b: Lines, p: nat, s: nat): (r: nat)
    requires p + s <= |a| && p + s <= |b|
    ensures s <= r && p + r <= |a| && p + r <= |b|
    ensures forall k | s <= k < r :: FromEnd(a, k) == FromEnd(b, k)
    ensures p + r < |a| && p + r < |b| ==> FromEnd(a, r) != FromEnd(b, r)
    decreases |a| - s
  {
    if p + s < |a| && p + s < |b| && FromEnd(a, s) == FromEnd(b, s) then SameTo(a, b, p, s + 1) else s
  }

  datatype Hunk = Hunk(oldStart: nat, newStart: nat, removed: Lines, added: Lines)

  function HunkAt(a: Lines, b: Lines, p: nat, s: nat): Hunk
    requires p + s <= |a| && p + s <= |b|
  {
    var removed, added := a[p..|a| - s], b[p..|b| - s];
    Hunk(if removed == [] then p else p + 1, if added == [] then p else p + 1, removed, added)
  }

  function HunkOf(a: Lines, b: Lines): Hunk {
    var p := SameFrom(a, b, 0);
    HunkAt(a, b, p, SameTo(a, b, p, 0))
  }

  function Marked(mark: char, lines: Lines): Lines { seq(|lines|, k requires 0 <= k < |lines| => [mark] + lines[k]) }

  function Range(mark: char, start: nat, count: nat): string { [mark] + Decimal(start) + "," + Decimal(count) }

  function HunkHeader(h: Hunk): string {
    "@@ " + Range('-', h.oldStart, |h.removed|) + " " + Range('+', h.newStart, |h.added|) + " @@"
  }

  function Printed(path: string, h: Hunk): string {
    Join(["--- a/" + path, "+++ b/" + path, HunkHeader(h)] + Marked('-', h.removed) + Marked('+', h.added), '\n')
  }

  method CommonPrefix(oldLines: Lines, newLines: Lines) returns (prefix: nat)
    ensures prefix == SameFrom(oldLines, newLines, 0)
  {
    prefix := 0;
    while prefix < |oldLines| && prefix < |newLines| && oldLines[prefix] == newLines[prefix]
      invariant prefix <= |oldLines| && prefix <= |newLines|
      invariant SameFrom(oldLines, newLines, 0) == SameFrom(oldLines, newLines, prefix)
    {
      prefix := prefix + 1;
    }
  }

  method CommonSuffix(oldLines: Lines, newLines: Lines, prefix: nat) returns (suffix: nat)
    requires prefix <= |oldLines| && prefix <= |newLines|
    ensures suffix == SameTo(oldLines, newLines, prefix, 0)
  {
    suffix := 0;
    while suffix < |oldLines| - prefix && suffix < |newLines| - prefix
          && oldLines[|oldLines| - 1 - suffix] == newLines[|newLines| - 1 - suffix]
      invariant prefix + suffix <= |oldLines| && prefix + suffix <= |newLines|
      invariant SameTo(oldLines, newLines, prefix, 0) == SameTo(oldLines, newLines, prefix, suffix)
    {
      suffix := suffix + 1;
    }
  }

  method FindHunk(oldLines: Lines, newLines: Lines) returns (h: Hunk)
    ensures h == HunkOf(oldLines, newLines)
  {
    var prefix := CommonPrefix(oldLines, newLines);
    var suffix := CommonSuffix(oldLines, newLines, prefix);
    var removed := oldLines[prefix..|oldLines| - suffix];
    var added := newLines[prefix..|newLines| - suffix];
    var oldStart := if |removed| == 0 then prefix else prefix + 1;
    var newStart := if |added| == 0 then prefix else prefix + 1;
    h := Hunk(oldStart, newStart, removed, added);
  }

  method ConfigTextDiff(path: string, before: string, after: string) returns (patch: string)
    ensures patch == Printed(path, HunkOf(ConfigLines(before), ConfigLines(after)))
  {
    var hunk := FindHunk(ConfigLines(before), ConfigLines(after));
    patch := Printed(path, hunk);
  }

  // ---------------------------------------------------------------- a patch reader

  /** `<mark>start,count` */
  function ReadRange(mark: char, word: string): Option<(nat, nat)> {
    if word == "" || word[0] != mark then None
    else
      var numbers := Split(word[1..], ',');
      if |numbers| != 2 then None
      else
        match (ParseDecimal(numbers[0]), ParseDecimal(numbers[1]))
        case (Some(start), Some(count)) => Some((start, count))
        case _ => None
  }

  predicate AllMarked(mark: char, lines: Lines) { forall k | 0 <= k < |lines| :: lines[k] != "" && lines[k][0] == mark }

  function Unmarked(lines: Lines): Lines
    requires forall k | 0 <= k < |lines| :: lines[k] != ""
  {
    seq(|lines|, k requires 0 <= k < |lines| => lines[k][1..])
  }

  /** Two file lines, one hunk header, then the announced numbers of `-` and `+` lines. */
  function ReadPatch(patch: string): Option<Hunk> {
    var parts := Split(patch, '\n');
    if |parts| < 3 then None
    else
      var words := Split(parts[2], ' ');
      if |words| != 4 || words[0] != "@@" || words[3] != "@@" then None
      else
        match (ReadRange('-', words[1]), ReadRange('+', words[2]))
        case (Some((oldStart, oldCount)), Some((newStart, newCount))) =>
          if |parts| != 3 + oldCount + newCount then None
          else
            var minus, plus := parts[3..3 + oldCount], parts[3 + oldCount..];
            if AllMarked('-', minus) && AllMarked('+', plus)
            then Some(Hunk(oldStart, newStart, Unmarked(minus), Unmarked(plus)))
            else None
        case _ => None
  }

  /** Where a hunk starts: its start line counts from 1, and names the line before when it covers none. */
  function Offset(start: nat, count: nat): int { if count == 0 then start else start - 1 }

  function Replace(lines: Lines, offset: int, gone: Lines, come: Lines): Option<Lines> {
    if 0 <= offset && offset + |gone| <= |lines| && lines[offset..offset + |gone|] == gone
    then Some(lines[..offset] + come + lines[offset + |gone|..])
    else None
  }

  function Apply(lines: Lines, h: Hunk): Option<Lines> {
    Replace(lines, Offset(h.oldStart, |h.removed|), h.removed, h.added)
  }

  function Revert(lines: Lines, h: Hunk): Option<Lines> {
    Replace(lines, Offset(h.newStart, |h.added|), h.added, h.removed)
  }

  // ---------------------------------------------------------------- reading back what is printed

  lemma DecimalLacks(n: nat, c: char)
    requires !IsDigit(c)
    ensures c !in Decimal(n)
  {
    DecimalRoundTrip(n);
  }

  lemma RangeReadsBack(mark: char, start: nat, count: nat)
    ensures ReadRange(mark, Range(mark, start, count)) == Some((start, count))
  {
    var a, b := Decimal(start), Decimal(count);
    assert Range(mark, start, count)[1..] == a + [','] + b;
    DecimalLacks(start, ',');
    DecimalLacks(count, ',');
    SplitHead(a, b, ',');
    SplitSingle(b, ',');
    DecimalRoundTrip(start);
    DecimalRoundTrip(count);
  }

  lemma RangeIsOneWord(mark: char, start: nat, count: nat, c: char)
    requires !IsDigit(c) && c != ',' && c != mark
    ensures c !in Range(mark, start, count)
  {
    DecimalLacks(start, c);
    DecimalLacks(count, c);
  }

  lemma WordsOfHeader(gone: string, come: string)
    requires ' ' !in gone && ' ' !in come
    ensures Split("@@ " + gone + " " + come + " @@", ' ') == ["@@", gone, come, "@@"]
  {
    SplitSingle("@@", ' ');
    SplitHead(come, "@@", ' ');
    SplitHead(gone, come + [' '] + "@@", ' ');
    SplitHead("@@", gone + [' '] + (come + [' '] + "@@"), ' ');
    assert "@@ " + gone + " " + come + " @@" == "@@" + [' '] + (gone + [' '] + (come + [' '] + "@@"));
  }

  lemma MarkedReadsBack(mark: char, lines: Lines)
    ensures AllMarked(mark, Marked(mark, lines)) && Unmarked(Marked(mark, lines)) == lines
  {
  }

  lemma PrintedPartsAreLines(path: string, h: Hunk)
    requires '\n' !in path && Free(h.removed, '\n') && Free(h.added, '\n')
    ensures Free(["--- a/" + path, "+++ b/" + path, HunkHeader(h)], '\n')
    ensures Free(Marked('-', h.removed), '\n') && Free(Marked('+', h.added), '\n')
  {
    RangeIsOneWord('-', h.oldStart, |h.removed|, '\n');
    RangeIsOneWord('+', h.newStart, |h.added|, '\n');
  }

  /** A patch reader gets exactly the hunk that was printed, below the two lines that name the file. */
  lemma PrintedReadsBack(path: string, h: Hunk)
    requires '\n' !in path && Free(h.removed, '\n') && Free(h.added, '\n')
    ensures ReadPatch(Printed(path, h)) == Some(h)
    ensures ["--- a/" + path, "+++ b/" + path] <= Split(Printed(path, h), '\n')
  {
    var head := ["--- a/" + path, "+++ b/" + path, HunkHeader(h)];
    var minus, plus := Marked('-', h.removed), Marked('+', h.added);
    var parts := head + minus + plus;
    PrintedPartsAreLines(path, h);
    SplitJoin(parts, '\n');
    assert parts[2] == HunkHeader(h);
    var gone, come := Range('-', h.oldStart, |h.removed|), Range('+', h.newStart, |h.added|);
    RangeIsOneWord('-', h.oldStart, |h.removed|, ' ');
    RangeIsOneWord('+', h.newStart, |h.added|, ' ');
    WordsOfHeader(gone, come);
    RangeReadsBack('-', h.oldStart, |h.removed|);
    RangeReadsBack('+', h.newStart, |h.added|);
    assert parts[3..3 + |h.removed|] == minus && parts[3 + |h.removed|..] == plus;
    MarkedReadsBack('-', h.removed);
    MarkedReadsBack('+', h.added);
  }

  // ---------------------------------------------------------------- the hunk applies

  lemma LastLines(a: Lines, b: Lines, s: nat)
    requires s <= |a| && s <= |b| && forall k | 0 <= k < s :: FromEnd(a, k) == FromEnd(b, k)
    ensures a[|a| - s..] == b[|b| - s..]
  {
    var x, y := a[|a| - s..], b[|b| - s..];
    forall k | 0 <= k < s
      ensures x[k] == y[k]
    {
      assert FromEnd(a, s - 1 - k) == FromEnd(b, s - 1 - k);
    }
  }

  lemma ReplaceMiddle(x: Lines, r: Lines, d: Lines, y: Lines)
    ensures Replace(x + r + y, |x|, r, d) == Some(x + d + y)
  {
    var a := x + r + y;
    assert a[..|x|] == x && a[|x|..|x| + |r|] == r && a[|x| + |r|..] == y;
  }

  lemma ThreeParts(a: Lines, p: nat, e: nat)
    requires p <= e <= |a|
    ensures a == a[..p] + a[p..e] + a[e..]
  {
  }

  lemma HunkAtApplies(a: Lines, b: Lines, p: nat, s: nat)
    requires p + s <= |a| && p + s <= |b|
    requires a[..p] == b[..p] && a[|a| - s..] == b[|b| - s..]
    ensures Apply(a, HunkAt(a, b, p, s)) == Some(b)
    ensures Revert(b, HunkAt(a, b, p, s)) == Some(a)
  {
    var r, d := a[p..|a| - s], b[p..|b| - s];
    ThreeParts(a, p, |a| - s);
    ThreeParts(b, p, |b| - s);
    ReplaceMiddle(a[..p], r, d, a[|a| - s..]);
    ReplaceMiddle(a[..p], d, r, a[|a| - s..]);
  }

  /** At its stated line the hunk turns the old lines into the new ones, and back. */
  lemma HunkApplies(a: Lines, b: Lines)
    ensures Apply(a, HunkOf(a, b)) == Some(b)
    ensures Revert(b, HunkOf(a, b)) == Some(a)
  {
    var p := SameFrom(a, b, 0);
    var s := SameTo(a, b, p, 0);
    assert a[..p] == b[..p];
    LastLines(a, b, s);
    HunkAtApplies(a, b, p, s);
  }

  lemma PrefixIsLongest(x: Lines, u: Lines, v: Lines)
    ensures SameFrom(x + u, x + v, 0) >= |x|
  {
    assert forall k | 0 <= k < |x| :: (x + u)[k] == (x + v)[k];
  }

  lemma PrefixOfThree(x: Lines, r: Lines, d: Lines, y: Lines)
    ensures SameFrom(x + r + y, x + d + y, 0) >= |x|
  {
    PrefixIsLongest(x, r + y, d + y);
    assert x + r + y == x + (r + y) && x + d + y == x + (d + y);
  }

  lemma SuffixIsLongest(u: Lines, v: Lines, y: Lines, p: nat)
    requires p <= |u + y| && p <= |v + y|
    ensures var s := SameTo(u + y, v + y, p, 0); s >= |y| || p + s == |u + y| || p + s == |v + y|
  {
    forall k | 0 <= k < |y|
      ensures FromEnd(u + y, k) == FromEnd(v + y, k)
    {
    }
  }

  /** No hunk that replaces one run of lines removes fewer lines or adds fewer lines. */
  lemma HunkIsSmallest(x: Lines, r: Lines, d: Lines, y: Lines)
    ensures var h := HunkOf(x + r + y, x + d + y); |h.removed| <= |r| && |h.added| <= |d|
  {
    PrefixOfThree(x, r, d, y);
    SuffixIsLongest(x + r, x + d, y, SameFrom(x + r + y, x + d + y, 0));
  }

  /** The printed text, read by a patch reader and applied at its stated line, turns the old lines into the new. */
  lemma DiffApplies(path: string, before: string, after: string)
    requires '\n' !in path
    ensures var read := ReadPatch(Printed(path, HunkOf(ConfigLines(before), ConfigLines(after))));
      && read.Some?
      && Apply(ConfigLines(before), read.value) == Some(ConfigLines(after))
      && Revert(ConfigLines(after), read.value) == Some(ConfigLines(before))
  {
    var a, b := ConfigLines(before), ConfigLines(after);
    ConfigRepeat.LinesOfText(before);
    ConfigRepeat.LinesOfText(after);
    PrintedReadsBack(path, HunkOf(a, b));
    HunkApplies(a, b);
  }
}
