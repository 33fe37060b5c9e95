/** Text as the command-line tool sees it: code-unit and byte orders, splitting, joining, decimals. */
module Text {
  datatype Option<+T> = None | Some(value: T)

  datatype Result<+T, +E> = Ok(value: T) | Err(error: E)

  /** Lexicographic order of integer codes; a proper prefix comes first. */
  predicate LexLess(a: seq<int>, b: seq<int>)
    decreases |a|
  {
    b != [] && (a == [] || a[0] < b[0] || (a[0] == b[0] && LexLess(a[1..], b[1..])))
  }

  lemma {:induction false} LexTransitive(a: seq<int>, b: seq<int>, c: seq<int>)
    requires LexLess(a, b) && LexLess(b, c)
    ensures LexLess(a, c)
    decreases |a|
  {
    if a != [] && a[0] == b[0] == c[0] {
      LexTransitive(a[1..], b[1..], c[1..]);
    }
  }

  lemma {:induction false} LexTrichotomy(a: seq<int>, b: seq<int>)
    ensures a == b || LexLess(a, b) || LexLess(b, a)
    ensures LexLess(a, b) ==> a != b && !LexLess(b, a)
    decreases |a|
  {
    if a != [] && b != [] && a[0] == b[0] {
      LexTrichotomy(a[1..], b[1..]);
      assert a == [a[0]] + a[1..] && b == [b[0]] + b[1..];
    }
  }

  /** A common prefix does not influence the order. */
  lemma {:induction false} LexCommonPrefix(p: seq<int>, a: seq<int>, b: seq<int>)
    ensures LexLess(p + a, p + b) <==> LexLess(a, b)
    decreases |p|
  {
    if p == [] {
      assert p + a == a && p + b == b;
    } else {
      LexCommonPrefix(p[1..], a, b);
      assert (p + a)[1..] == p[1..] + a && (p + b)[1..] == p[1..] + b;
    }
  }

  /** Extending the greater operand, or two operands that differ before either ends, keeps the order. */
  lemma {:induction false} LexExtend(a: seq<int>, b: seq<int>, x: seq<int>, y: seq<int>)
    requires LexLess(a, b)
    requires x == [] || !(a <= b)
    ensures LexLess(a + x, b + y)
    decreases |a|
  {
    if a == [] {
      assert a + x == x && a <= b;
    } else if a[0] == b[0] {
      assert (a + x)[1..] == a[1..] + x && (b + y)[1..] == b[1..] + y;
      assert a[1..] <= b[1..] ==> a <= b by {
        assert a == [a[0]] + a[1..] && b == [b[0]] + b[1..];
      }
      LexExtend(a[1..], b[1..], x, y);
    }
  }

  // ---------------------------------------------------------------- encodings

  /** The UTF-8 bytes of one character. */
  function Utf8Char(c: char): (b: seq<int>) {
    var u := c as int;
    if u < 0x80 then [u]
    else if u < 0x800 then [0xC0 + u / 0x40, 0x80 + u % 0x40]
    else
      var v := u / 0x40;
      if u < 0x10000 then [0xE0 + v / 0x40, 0x80 + v % 0x40, 0x80 + u % 0x40]
      else
        var w := v / 0x40;
        [0xF0 + w / 0x40, 0x80 + w % 0x40, 0x80 + v % 0x40, 0x80 + u % 0x40]
  }

  /** The UTF-16 code units of one character: what JavaScript compares with `<`. */
  function Utf16Char(c: char): (b: seq<int>) {
    var u := c as int;
    if u < 0x10000 then [u] else [0xD800 + (u - 0x10000) / 0x400, 0xDC00 + (u - 0x10000) % 0x400]
  }

  function Encode(enc: char -> seq<int>, s: string): seq<int> {
    if s == [] then [] else enc(s[0]) + Encode(enc, s[1..])
  }

  function Utf8(s: string): seq<int> { Encode(Utf8Char, s) }

  function Units(s: string): seq<int> { Encode(Utf16Char, s) }

  /** No code word is empty or a prefix of another one. */
  ghost predicate PrefixCode(enc: char -> seq<int>) {
    && (forall c: char :: enc(c) != [])
    && (forall c: char, d: char :: enc(c) <= enc(d) ==> c == d)
  }

  /** The value a UTF-8 code word stands for. */
  function Utf8Value(b: seq<int>): int {
    if |b| == 1 then b[0]
    else if |b| == 2 then (b[0] - 0xC0) * 0x40 + b[1] - 0x80
    else if |b| == 3 then ((b[0] - 0xE0) * 0x40 + b[1] - 0x80) * 0x40 + b[2] - 0x80
    else if |b| == 4 then (((b[0] - 0xF0) * 0x40 + b[1] - 0x80) * 0x40 + b[2] - 0x80) * 0x40 + b[3] - 0x80
    else 0
  }

  /** The first byte fixes the length of the code word, and the code word fixes the character. */
  lemma Utf8CharDecodes(c: char)
    ensures var b := Utf8Char(c);
      && Utf8Value(b) == c as int
      && |b| == (if b[0] < 0x80 then 1 else if b[0] < 0xE0 then 2 else if b[0] < 0xF0 then 3 else 4)
  {
  }

  lemma Utf8IsPrefixCode()
    ensures PrefixCode(Utf8Char)
  {
    forall c: char, d: char | Utf8Char(c) <= Utf8Char(d)
      ensures c == d
    {
      Utf8CharDecodes(c);
      Utf8CharDecodes(d);
      assert Utf8Char(c)[0] == Utf8Char(d)[0];
      assert Utf8Char(c) == Utf8Char(d);
    }
  }

  lemma Utf16IsPrefixCode()
    ensures PrefixCode(Utf16Char)
  {
    forall c: char, d: char | Utf16Char(c) <= Utf16Char(d)
      ensures c == d
    {
      var x, y := Utf16Char(c), Utf16Char(d);
      assert x[0] == y[0] && (|x| == 2 ==> x[1] == y[1]);
      assert c as int == d as int;
    }
  }

  lemma {:induction false} EncodeInjective(enc: char -> seq<int>, a: string, b: string)
    requires PrefixCode(enc)
    requires Encode(enc, a) == Encode(enc, b)
    ensures a == b
    decreases |a|
  {
    if a != [] && b != [] {
      var x, y := enc(a[0]), enc(b[0]);
      var whole := Encode(enc, a);
      assert whole[..|x|] == x && whole[..|y|] == y;
      assert |x| <= |y| ==> x == y[..|x|];
      assert |y| <= |x| ==> y == x[..|y|];
      assert x <= y || y <= x;
      assert a[0] == b[0];
      assert whole[|x|..] == Encode(enc, a[1..]);
      assert whole[|x|..] == Encode(enc, b[1..]);
      EncodeInjective(enc, a[1..], b[1..]);
      assert a == [a[0]] + a[1..] && b == [b[0]] + b[1..];
    }
  }

  lemma {:induction false} EncodeConcat(enc: char -> seq<int>, a: string, b: string)
    ensures Encode(enc, a + b) == Encode(enc, a) + Encode(enc, b)
    decreases |a|
  {
    if a == [] {
      assert a + b == b;
    } else {
      EncodeConcat(enc, a[1..], b);
      assert (a + b)[1..] == a[1..] + b;
    }
  }

  lemma Utf8Injective(a: string, b: string)
    requires Utf8(a) == Utf8(b)
    ensures a == b
  {
    Utf8IsPrefixCode();
    EncodeInjective(Utf8Char, a, b);
  }

  lemma UnitsInjective(a: string, b: string)
    requires Units(a) == Units(b)
    ensures a == b
  {
    Utf16IsPrefixCode();
    EncodeInjective(Utf16Char, a, b);
  }

  /** A prefix code keeps prefixes, both ways. */
  lemma {:induction false} EncodePrefix(enc: char -> seq<int>, a: string, s: string)
    requires PrefixCode(enc)
    ensures Encode(enc, a) <= Encode(enc, s) <==> a <= s
    decreases |a|
  {
    if a <= s {
      EncodeConcat(enc, a, s[|a|..]);
      assert s == a + s[|a|..];
    } else if Encode(enc, a) <= Encode(enc, s) {
      assert a != [] && a == [a[0]] + a[1..];
      var x := enc(a[0]);
      assert Encode(enc, s)[..|x|] == x;
      if s != [] {
        var y := enc(s[0]);
        assert s == [s[0]] + s[1..];
        assert Encode(enc, s)[..|y|] == y;
        assert x <= y || y <= x;
        assert a[0] == s[0];
        assert Encode(enc, a)[|x|..] <= Encode(enc, s)[|x|..];
        EncodePrefix(enc, a[1..], s[1..]);
      }
    }
  }

  /** An ASCII byte appears in the UTF-8 form exactly when its character appears in the text. */
  lemma {:induction false} Utf8Ascii(s: string, c: char)
    requires c as int < 0x80
    ensures (c as int) in Utf8(s) <==> c in s
    decreases |s|
  {
    if s != [] {
      Utf8Ascii(s[1..], c);
      assert s == [s[0]] + s[1..];
      assert (c as int) in Utf8Char(s[0]) <==> s[0] == c;
      assert Utf8(s) == Utf8Char(s[0]) + Utf8(s[1..]);
    }
  }

  // ---------------------------------------------------------------- split and join

  /** `s.split(sep)`: always at least one part. */
  function Split(s: string, sep: char): (parts: seq<string>)
    ensures |parts| >= 1
  {
    if s == [] then [""]
    else
      var rest := Split(s[1..], sep);
      if s[0] == sep then [""] + rest else [[s[0]] + rest[0]] + rest[1..]
  }

  /** `parts.join(sep)`. */
  function Join(parts: seq<string>, sep: char): string {
    if |parts| == 0 then ""
    else if |parts| == 1 then parts[0]
    else parts[0] + [sep] + Join(parts[1..], sep)
  }

  ghost predicate Free(parts: seq<string>, sep: char) {
    forall i | 0 <= i < |parts| :: sep !in parts[i]
  }

  lemma {:induction false} JoinSplit(s: string, sep: char)
    ensures Join(Split(s, sep), sep) == s
    ensures Free(Split(s, sep), sep)
    decreases |s|
  {
    if s != [] {
      JoinSplit(s[1..], sep);
      var rest := Split(s[1..], sep);
      var parts := Split(s, sep);
      if s[0] == sep {
        assert parts[1..] == rest;
      } else {
        if |rest| > 1 {
          assert parts[1..] == rest[1..];
        }
        forall i | 0 <= i < |parts|
          ensures sep !in parts[i]
        {
          if i > 0 {
            assert parts[i] == rest[i];
          }
        }
      }
      assert s == [s[0]] + s[1..];
    }
  }

  lemma {:induction false} SplitJoin(parts: seq<string>, sep: char)
    requires parts != [] && Free(parts, sep)
    ensures Split(Join(parts, sep), sep) == parts
    decreases |parts|
  {
    if |parts| == 1 {
      SplitSingle(parts[0], sep);
    } else {
      SplitJoin(parts[1..], sep);
      SplitHead(parts[0], Join(parts[1..], sep), sep);
      assert parts == [parts[0]] + parts[1..];
    }
  }

  lemma {:induction false} SplitSingle(s: string, sep: char)
    requires sep !in s
    ensures Split(s, sep) == [s]
    decreases |s|
  {
    if s != [] {
      SplitSingle(s[1..], sep);
      assert s[0] in s && s == [s[0]] + s[1..];
    }
  }

  lemma {:induction false} SplitHead(head: string, tail: string, sep: char)
    requires sep !in head
    ensures Split(head + [sep] + tail, sep) == [head] + Split(tail, sep)
    decreases |head|
  {
    var s := head + [sep] + tail;
    if head == [] {
      assert s[1..] == tail;
    } else {
      SplitHead(head[1..], tail, sep);
      assert s[1..] == head[1..] + [sep] + tail;
      assert head == [head[0]] + head[1..];
    }
  }

  // ---------------------------------------------------------------- paths below a folder

  predicate Under(path: string, folder: string) { path == folder || folder + "/" <= path }

  /** A path is `folder` or continues it with a `/`. */
  ghost predicate AtOrBelow(path: string, folder: string) {
    path == folder || (|path| > |folder| && path[..|folder|] == folder && path[|folder|] == '/')
  }

  lemma UnderIs(path: string, folder: string)
    ensures Under(path, folder) <==> AtOrBelow(path, folder)
  {
    if folder + "/" <= path {
      assert path[|folder|] == (folder + "/")[|folder|] && path[..|folder|] == (folder + "/")[..|folder|];
    }
    if AtOrBelow(path, folder) && path != folder {
      assert path[..|folder| + 1] == path[..|folder|] + [path[|folder|]];
    }
  }

  // ---------------------------------------------------------------- white space

  /** White space as `trim` and the pattern `\s` know it. */
  predicate IsSpace(c: char) {
    var u := c as int;
    u in {0x09, 0x0A, 0x0B, 0x0C, 0x0D, 0x20, 0xA0, 0x1680, 0x2028, 0x2029, 0x202F, 0x205F, 0x3000, 0xFEFF}
    || 0x2000 <= u <= 0x200A
  }

  function TrimStart(s: string): (r: string)
    ensures |r| <= |s|
  {
    if s != [] && IsSpace(s[0]) then TrimStart(s[1..]) else s
  }

  function TrimEnd(s: string): string { if s != [] && IsSpace(s[|s| - 1]) then TrimEnd(s[..|s| - 1]) else s }

  function Trim(s: string): string { TrimEnd(TrimStart(s)) }

  lemma {:induction false} TrimStartKeeps(s: string, c: char)
    requires c in s && !IsSpace(c)
    ensures c in TrimStart(s)
  {
    if IsSpace(s[0]) {
      assert s == [s[0]] + s[1..];
      TrimStartKeeps(s[1..], c);
    }
  }

  lemma {:induction false} TrimEndKeeps(s: string, c: char)
    requires c in s && !IsSpace(c)
    ensures c in TrimEnd(s)
  {
    if IsSpace(s[|s| - 1]) {
      assert s == s[..|s| - 1] + [s[|s| - 1]];
      TrimEndKeeps(s[..|s| - 1], c);
    }
  }

  /** Trimming removes white space only. */
  lemma TrimKeeps(s: string, c: char)
    requires c in s && !IsSpace(c)
    ensures c in Trim(s)
  {
    TrimStartKeeps(s, c);
    TrimEndKeeps(TrimStart(s), c);
  }

  ghost predicate AllSpace(s: string) { forall i | 0 <= i < |s| :: IsSpace(s[i]) }

  /** `core` is `s` without white space at its ends. */
  ghost predicate TrimsTo(s: string, core: string) {
    && (core != "" ==> !IsSpace(core[0]) && !IsSpace(core[|core| - 1]))
    && exists a, b :: s == a + core + b && AllSpace(a) && AllSpace(b)
  }

  lemma {:induction false} TrimStartIs(s: string) returns (a: string)
    ensures s == a + TrimStart(s) && AllSpace(a)
    ensures TrimStart(s) != "" ==> !IsSpace(TrimStart(s)[0])
  {
    if s != [] && IsSpace(s[0]) {
      var rest := TrimStartIs(s[1..]);
      a := [s[0]] + rest;
      assert s == [s[0]] + s[1..];
    } else {
      a := "";
    }
  }

  lemma {:induction false} TrimEndIs(s: string) returns (b: string)
    ensures s == TrimEnd(s) + b && AllSpace(b)
    ensures TrimEnd(s) != "" ==> !IsSpace(TrimEnd(s)[|TrimEnd(s)| - 1])
  {
    if s != [] && IsSpace(s[|s| - 1]) {
      var rest := TrimEndIs(s[..|s| - 1]);
      b := rest + [s[|s| - 1]];
      assert s == s[..|s| - 1] + [s[|s| - 1]];
    } else {
      b := "";
    }
  }

  lemma TrimIs(s: string)
    ensures TrimsTo(s, Trim(s))
    ensures Trim(s) == "" <==> AllSpace(s)
  {
    var a := TrimStartIs(s);
    var b := TrimEndIs(TrimStart(s));
    var core := Trim(s);
    assert s == a + core + b;
    assert core != "" ==> s[|a|] == core[0] == TrimStart(s)[0];
    assert core == "" ==> s == a + b;
  }

  // ---------------------------------------------------------------- decimal numbers

  function Digit(d: nat): char
    requires d < 10
  {
    ('0' as int + d) as char
  }

  function Decimal(n: nat): string {
    if n < 10 then [Digit(n)] else Decimal(n / 10) + [Digit(n % 10)]
  }

  predicate IsDigit(c: char) { '0' <= c <= '9' }

  /** Reads a non-empty run of decimal digits. */
  function ParseDecimal(s: string): Option<nat> {
    if |s| == 0 || !IsDigit(s[|s| - 1]) then None
    else
      var last := s[|s| - 1] as int - '0' as int;
      if |s| == 1 then Some(last)
      else
        match ParseDecimal(s[..|s| - 1])
        case None => None
        case Some(front) => Some(front * 10 + last)
  }

  lemma {:induction false} DecimalRoundTrip(n: nat)
    ensures ParseDecimal(Decimal(n)) == Some(n)
    ensures forall c | c in Decimal(n) :: IsDigit(c)
  {
    if n >= 10 {
      DecimalRoundTrip(n / 10);
      var s := Decimal(n);
      assert s[..|s| - 1] == Decimal(n / 10);
    }
  }
}
