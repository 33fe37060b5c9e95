/** Parsing, printing and quoting of command-line arguments. */
module CommandLine {
  import opened Text

  datatype Value = Flag | Single(text: string) | Many(texts: seq<string>)

  datatype Parsed = Parsed(options: map<string, Value>, positionals: seq<string>)

  datatype ArgError = InvalidFlag(token: string) | ValueRequired(name: string)

  /** Flags that carry no value. */
  const BOOLEAN_FLAGS: set<string> := {
    "json", "changed", "from-run", "staged", "help", "version", "confirm", "confirm-doc-exclusions",
    "confirm-cache-exclusions", "blocking", "no-blocking", "strict-e2e", "pytest", "require-e2e", "pre-commit",
    "no-pre-commit", "ci", "no-ci", "planes", "no-planes", "rules", "behavior", "no-behavior",
    "accept-recommended", "no-scan", "failed", "result-only", "timing", "no-cache", "explain-presets",
    "dry-run", "probe", "strict-preflight", "hook-mutation"}

  predicate IsBoolean(name: string) { name in BOOLEAN_FLAGS }

  predicate IsFlagToken(token: string) { "--" <= token }

  // ---------------------------------------------------------------- tokens

  /** What one occurrence of a flag carries. */
  datatype Given = Bare | Carried(text: string)

  datatype Event = FlagGiven(name: string, given: Given) | Positional(text: string)

  function GivenText(g: Given): string { if g.Bare? then "true" else g.text }

  function EqualsAt(body: string): (i: nat)
    ensures i <= |body|
    ensures '=' !in body[..i]
    ensures i < |body| ==> body[i] == '='
  {
    if body == [] || body[0] == '=' then 0
    else
      var i := EqualsAt(body[1..]) + 1;
      assert body[..i] == [body[0]] + body[1..][..i - 1];
      i
  }

  /** The flag occurrences and positionals of an argument vector, in order. */
  function Events(argv: seq<string>): Result<seq<Event>, ArgError>
    decreases |argv|
  {
    if argv == [] then Ok([])
    else if argv[0] == "--" then Ok(Positionals(argv[1..]))
    else if !IsFlagToken(argv[0]) then Prepend(Positional(argv[0]), Events(argv[1..]))
    else
      var body := argv[0][2..];
      var eq := EqualsAt(body);
      var name := body[..eq];
      if name == "" then Err(InvalidFlag(argv[0]))
      else if eq < |body| then Prepend(FlagGiven(name, Carried(body[eq + 1..])), Events(argv[1..]))
      else if IsBoolean(name) then Prepend(FlagGiven(name, Bare), Events(argv[1..]))
      else if |argv| == 1 || IsFlagToken(argv[1]) then Err(ValueRequired(name))
      else Prepend(FlagGiven(name, Carried(argv[1])), Events(argv[2..]))
  }

  function Prepend(e: Event, r: Result<seq<Event>, ArgError>): Result<seq<Event>, ArgError> {
    match r
    case Err(x) => Err(x)
    case Ok(es) => Ok([e] + es)
  }

  function Positionals(texts: seq<string>): seq<Event> {
    if texts == [] then [] else [Positional(texts[0])] + Positionals(texts[1..])
  }

  // ---------------------------------------------------------------- options

  function ValueText(v: Value): string
    requires !v.Many?
  {
    if v.Flag? then "true" else v.text
  }

  /** One more occurrence of a flag. */
  function Repeat(existing: Value, g: Given): Value {
    match existing
    case Many(texts) => Many(texts + [GivenText(g)])
    case _ => Many([ValueText(existing), GivenText(g)])
  }

  function First(g: Given): Value { if g.Bare? then Flag else Single(g.text) }

  function Record(p: Parsed, e: Event): Parsed {
    match e
    case Positional(text) => p.(positionals := p.positionals + [text])
    case FlagGiven(name, g) =>
      p.(options := p.options[name := if name in p.options then Repeat(p.options[name], g) else First(g)])
  }

  function RecordAll(p: Parsed, es: seq<Event>): Parsed
    decreases |es|
  {
    if es == [] then p else RecordAll(Record(p, es[0]), es[1..])
  }

  const NOTHING := Parsed(map[], [])

  function Meaning(argv: seq<string>): Result<Parsed, ArgError> {
    match Events(argv)
    case Err(e) => Err(e)
    case Ok(es) => Ok(RecordAll(NOTHING, es))
  }

  method ParseArgs(argv: seq<string>) returns (r: Result<Parsed, ArgError>)
    ensures r == Meaning(argv)
  {
    var p := NOTHING;
    var afterDoubleDash := false;
    var index := 0;
    while index < |argv|
      invariant index <= |argv|
      invariant Meaning(argv) ==
        if afterDoubleDash then Ok(RecordAll(p, Positionals(argv[index..])))
        else match Events(argv[index..]) case Err(e) => Err(e) case Ok(es) => Ok(RecordAll(p, es))
      decreases |argv| - index
    {
      var token := argv[index];
      assert argv[index..][1..] == argv[index + 1..];
      if afterDoubleDash {
        p := p.(positionals := p.positionals + [token]);
        index := index + 1;
        continue;
      }
      if token == "--" {
        afterDoubleDash := true;
        index := index + 1;
        continue;
      }
      if !("--" <= token) || token == "-" {
        p := p.(positionals := p.positionals + [token]);
        index := index + 1;
        continue;
      }
      var body := token[2..];
      var eq := EqualsAt(body);
      var name := body[..eq];
      if |name| == 0 { return Err(InvalidFlag(token)); }
      var value: Given;
      var next := index + 1;
      if eq < |body| {
        value := Carried(body[eq + 1..]);
      } else if IsBoolean(name) {
        value := Bare;
      } else {
        if |argv| == index + 1 || "--" <= argv[index + 1] { return Err(ValueRequired(name)); }
        value := Carried(argv[index + 1]);
        next := index + 2;
        assert argv[index..][2..] == argv[index + 2..];
      }
      if name !in p.options {
        p := p.(options := p.options[name := if value.Bare? then Flag else Single(value.text)]);
      } else if p.options[name].Many? {
        p := p.(options := p.options[name := Many(p.options[name].texts + [GivenText(value)])]);
      } else if p.options[name].Single? && value.Carried? {
        p := p.(options := p.options[name := Many([p.options[name].text, value.text])]);
      } else {
        p := p.(options := p.options[name := Many([ValueText(p.options[name]), GivenText(value)])]);
      }
      index := next;
    }
    r := Ok(p);
  }

  // ---------------------------------------------------------------- repeated flags

  /** Everything one flag was given, in argument order. */
  function GivenTo(es: seq<Event>, name: string): seq<Given> {
    if es == [] then [] else GivenBy(es[0], name) + GivenTo(es[1..], name)
  }

  function GivenBy(e: Event, name: string): seq<Given> { if e.FlagGiven? && e.name == name then [e.given] else [] }

  function Texts(gs: seq<Given>): seq<string> {
    if gs == [] then [] else [GivenText(gs[0])] + Texts(gs[1..])
  }

  function PositionalsOf(es: seq<Event>): seq<string> {
    if es == [] then []
    else
      var rest := PositionalsOf(es[1..]);
      if es[0].Positional? then [es[0].text] + rest else rest
  }

  /** The texts a recorded value stands for. */
  function ValueTexts(v: Value): seq<string> { if v.Many? then v.texts else [ValueText(v)] }

  function OptionTexts(p: Parsed, name: string): seq<string> {
    if name in p.options then ValueTexts(p.options[name]) else []
  }

  ghost predicate InOrder(p: Parsed, gs: seq<Given>, name: string, q: Parsed) {
    && OptionTexts(q, name) == OptionTexts(p, name) + Texts(gs)
    && (name in q.options <==> name in p.options || gs != [])
    && (gs == [] && name in p.options ==> q.options[name] == p.options[name])
    && (name !in p.options && |gs| == 1 ==> q.options[name] == First(gs[0]))
    && ((name in p.options && gs != []) || |gs| >= 2 ==> q.options[name].Many?)
  }

  lemma RecordOne(p: Parsed, e: Event, name: string)
    ensures InOrder(p, GivenBy(e, name), name, Record(p, e))
  {
    var gs := GivenBy(e, name);
    assert Texts(gs) == if gs == [] then [] else [GivenText(gs[0])];
  }

  lemma InOrderStep(p: Parsed, gs: seq<Given>, name: string, q: Parsed, more: seq<Given>, r: Parsed)
    requires |gs| <= 1 && InOrder(p, gs, name, q) && InOrder(q, more, name, r)
    ensures InOrder(p, gs + more, name, r)
  {
    if gs == [] {
      assert gs + more == more;
      assert OptionTexts(p, name) + [] == OptionTexts(p, name);
    } else {
      assert (gs + more)[1..] == more;
      assert Texts(gs) == [GivenText(gs[0])];
      assert Texts(gs + more) == [GivenText(gs[0])] + Texts(more);
    }
  }

  /**
   * A flag given n times holds its n values in argument order; given once it keeps its own shape;
   * positionals keep their order.
   */
  lemma {:induction false} RecordedInOrder(p: Parsed, es: seq<Event>, name: string)
    ensures InOrder(p, GivenTo(es, name), name, RecordAll(p, es))
    ensures RecordAll(p, es).positionals == p.positionals + PositionalsOf(es)
    decreases |es|
  {
    if es != [] {
      var e, rest := es[0], es[1..];
      RecordedInOrder(Record(p, e), rest, name);
      RecordOne(p, e, name);
      InOrderStep(p, GivenBy(e, name), name, Record(p, e), GivenTo(rest, name), RecordAll(p, es));
    }
  }

  // ---------------------------------------------------------------- blank values

  function NonBlank(texts: seq<string>): seq<string> {
    if texts == [] then []
    else
      var rest := NonBlank(texts[1..]);
      if |Trim(texts[0])| > 0 then [Trim(texts[0])] + rest else rest
  }

  function RepeatableStringFlag(options: map<string, Value>, name: string): Option<seq<string>> {
    if name !in options then None
    else
      var raw := match options[name] case Many(texts) => texts case v => [ValueText(v)];
      var values := NonBlank(raw);
      if |values| == 0 then None else Some(values)
  }

  /** A repeatable flag reads as its non-blank values in argument order, and is absent when there is none. */
  lemma RepeatableFlagReads(argv: seq<string>, es: seq<Event>, p: Parsed, name: string)
    requires Events(argv) == Ok(es) && Meaning(argv) == Ok(p)
    ensures
      var values := NonBlank(Texts(GivenTo(es, name)));
      RepeatableStringFlag(p.options, name) == if values == [] then None else Some(values)
  {
    RecordedInOrder(NOTHING, es, name);
    assert OptionTexts(p, name) == Texts(GivenTo(es, name));
    assert name in p.options ==> OptionTexts(p, name) == ValueTexts(p.options[name]);
  }

  // ---------------------------------------------------------------- printing

  function PrintTexts(name: string, texts: seq<string>): seq<string> {
    if texts == [] then [] else ["--" + name + "=" + texts[0]] + PrintTexts(name, texts[1..])
  }

  function PrintOption(name: string, v: Value): seq<string> {
    match v
    case Flag => ["--" + name]
    case Single(text) => PrintTexts(name, [text])
    case Many(texts) => PrintTexts(name, texts)
  }

  function PrintOptions(order: seq<string>, options: map<string, Value>): seq<string>
    requires forall n | n in order :: n in options
  {
    if order == [] then [] else PrintOption(order[0], options[order[0]]) + PrintOptions(order[1..], options)
  }

  /** `--name` / `--name=value` for every option in the given order, then `--`, then the positionals. */
  function Print(order: seq<string>, p: Parsed): seq<string>
    requires forall n | n in order :: n in p.options
  {
    PrintOptions(order, p.options) + ["--"] + p.positionals
  }

  /** Lists every option once. */
  ghost predicate Enumerates(order: seq<string>, p: Parsed) {
    && (forall n :: n in order <==> n in p.options)
    && (forall i, j | 0 <= i < j < |order| :: order[i] != order[j])
  }

  /** Shapes a parse can produce. */
  ghost predicate Parseable(p: Parsed) {
    forall n | n in p.options ::
      && n != "" && '=' !in n
      && (p.options[n].Flag? ==> IsBoolean(n))
      && (p.options[n].Many? ==> |p.options[n].texts| >= 2)
  }

  ghost predicate ParseableEvent(e: Event) {
    e.FlagGiven? ==> e.name != "" && '=' !in e.name && (e.given.Bare? ==> IsBoolean(e.name))
  }

  lemma {:induction false} EventsParseable(argv: seq<string>, es: seq<Event>)
    requires Events(argv) == Ok(es)
    ensures forall e | e in es :: ParseableEvent(e)
    decreases |argv|
  {
    if argv == [] {
    } else if argv[0] == "--" {
      PositionalsOnly(argv[1..]);
    } else if !IsFlagToken(argv[0]) {
      EventsParseable(argv[1..], es[1..]);
    } else {
      var body := argv[0][2..];
      var eq := EqualsAt(body);
      if eq < |body| || IsBoolean(body[..eq]) {
        EventsParseable(argv[1..], es[1..]);
      } else {
        EventsParseable(argv[2..], es[1..]);
      }
    }
  }

  lemma {:induction false} PositionalsOnly(texts: seq<string>)
    ensures forall e | e in Positionals(texts) :: e.Positional?
    ensures PositionalsOf(Positionals(texts)) == texts
    ensures forall name :: GivenTo(Positionals(texts), name) == []
    decreases |texts|
  {
    if texts != [] {
      PositionalsOnly(texts[1..]);
      assert Positionals(texts)[1..] == Positionals(texts[1..]);
    }
  }

  lemma {:induction false} RecordAllParseable(p: Parsed, es: seq<Event>)
    requires Parseable(p) && forall e | e in es :: ParseableEvent(e)
    ensures Parseable(RecordAll(p, es))
    decreases |es|
  {
    if es != [] {
      assert ParseableEvent(es[0]);
      RecordAllParseable(Record(p, es[0]), es[1..]);
    }
  }

  function Concat(es: seq<Event>, r: Result<seq<Event>, ArgError>): Result<seq<Event>, ArgError> {
    match r
    case Err(x) => Err(x)
    case Ok(more) => Ok(es + more)
  }

  function CarriedAll(name: string, texts: seq<string>): seq<Event> {
    if texts == [] then [] else [FlagGiven(name, Carried(texts[0]))] + CarriedAll(name, texts[1..])
  }

  /** The occurrences one printed option stands for. */
  function Occurrences(name: string, v: Value): seq<Event> {
    match v
    case Flag => [FlagGiven(name, Bare)]
    case Single(text) => [FlagGiven(name, Carried(text))]
    case Many(texts) => CarriedAll(name, texts)
  }

  lemma EqualsAtIs(name: string, text: string)
    requires '=' !in name
    ensures EqualsAt(name + "=" + text) == |name|
    ensures EqualsAt(name) == |name|
  {
    var body := name + "=" + text;
    var i := EqualsAt(body);
    assert body[|name|] == '=';
    assert forall j | 0 <= j < |name| :: body[j] == name[j];
    assert forall j | 0 <= j < i :: body[..i][j] == body[j];
  }

  lemma ReadAssignment(name: string, text: string, rest: seq<string>)
    requires name != "" && '=' !in name
    ensures Events(["--" + name + "=" + text] + rest) == Prepend(FlagGiven(name, Carried(text)), Events(rest))
  {
    var token := "--" + name + "=" + text;
    var argv := [token] + rest;
    assert argv[1..] == rest;
    assert token[2..] == name + "=" + text;
    EqualsAtIs(name, text);
    assert (name + "=" + text)[..|name|] == name && (name + "=" + text)[|name| + 1..] == text;
    assert token != "--" by { assert |token| > 2; }
  }

  /** A flag token without `=` is its own name. */
  lemma BareToken(token: string, name: string)
    requires token == "--" + name && name != "" && '=' !in name
    ensures token != "--" && IsFlagToken(token) && token[2..] == name
    ensures EqualsAt(name) == |name| && name[..|name|] == name
  {
    EqualsAtIs(name, "");
    assert |token| > 2;
  }

  lemma ReadBare(name: string, rest: seq<string>)
    requires name != "" && '=' !in name && IsBoolean(name)
    ensures Events(["--" + name] + rest) == Prepend(FlagGiven(name, Bare), Events(rest))
  {
    var token := "--" + name;
    BareToken(token, name);
    ReadBoolean([token] + rest, name, rest);
  }

  lemma ReadBoolean(argv: seq<string>, name: string, rest: seq<string>)
    requires argv != [] && argv[1..] == rest && argv[0] != "--" && IsFlagToken(argv[0]) && argv[0][2..] == name
    requires name != "" && EqualsAt(name) == |name| && name[..|name|] == name && IsBoolean(name)
    ensures Events(argv) == Prepend(FlagGiven(name, Bare), Events(rest))
  {
  }

  lemma {:induction false} ReadTexts(name: string, texts: seq<string>, rest: seq<string>)
    requires name != "" && '=' !in name
    ensures Events(PrintTexts(name, texts) + rest) == Concat(CarriedAll(name, texts), Events(rest))
    decreases |texts|
  {
    if texts == [] {
      assert PrintTexts(name, texts) + rest == rest;
      ConcatNothing(Events(rest));
    } else {
      var more := PrintTexts(name, texts[1..]) + rest;
      ReadTexts(name, texts[1..], rest);
      ReadAssignment(name, texts[0], more);
      assert PrintTexts(name, texts) + rest == ["--" + name + "=" + texts[0]] + more;
      ConcatCons(FlagGiven(name, Carried(texts[0])), CarriedAll(name, texts[1..]), Events(rest));
    }
  }

  lemma ConcatNothing(r: Result<seq<Event>, ArgError>)
    ensures Concat([], r) == r
  {
    if r.Ok? { assert [] + r.value == r.value; }
  }

  lemma ConcatCons(e: Event, es: seq<Event>, r: Result<seq<Event>, ArgError>)
    ensures Prepend(e, Concat(es, r)) == Concat([e] + es, r)
  {
    if r.Ok? {
      assert [e] + (es + r.value) == [e] + es + r.value;
    }
  }

  lemma ReadOption(name: string, v: Value, rest: seq<string>)
    requires name != "" && '=' !in name && (v.Flag? ==> IsBoolean(name))
    ensures Events(PrintOption(name, v) + rest) == Concat(Occurrences(name, v), Events(rest))
  {
    match v {
      case Flag =>
        ReadBare(name, rest);
      case Single(text) =>
        ReadTexts(name, [text], rest);
        assert [text][1..] == [];
        assert CarriedAll(name, [text]) == [FlagGiven(name, Carried(text))];
      case Many(texts) =>
        ReadTexts(name, texts, rest);
    }
  }

  function AllOccurrences(order: seq<string>, options: map<string, Value>): seq<Event>
    requires forall n | n in order :: n in options
  {
    if order == [] then []
    else Occurrences(order[0], options[order[0]]) + AllOccurrences(order[1..], options)
  }

  lemma {:induction false} ReadOptions(order: seq<string>, p: Parsed, rest: seq<string>)
    requires Parseable(p) && forall n | n in order :: n in p.options
    ensures Events(PrintOptions(order, p.options) + rest)
         == Concat(AllOccurrences(order, p.options), Events(rest))
    decreases |order|
  {
    if order == [] {
      assert PrintOptions(order, p.options) + rest == rest;
      ConcatNothing(Events(rest));
    } else {
      var n := order[0];
      var later := PrintOptions(order[1..], p.options) + rest;
      assert n in order;
      ReadOptions(order[1..], p, rest);
      ReadOption(n, p.options[n], later);
      assert PrintOptions(order, p.options) + rest == PrintOption(n, p.options[n]) + later;
      ConcatAssociates(Occurrences(n, p.options[n]), AllOccurrences(order[1..], p.options), Events(rest));
    }
  }

  lemma ConcatAssociates(a: seq<Event>, b: seq<Event>, r: Result<seq<Event>, ArgError>)
    ensures Concat(a, Concat(b, r)) == Concat(a + b, r)
  {
    if r.Ok? { assert a + (b + r.value) == a + b + r.value; }
  }

  function CarriedGivens(texts: seq<string>): seq<Given> {
    seq(|texts|, i requires 0 <= i < |texts| => Carried(texts[i]))
  }

  lemma {:induction false} CarriedGivensTexts(texts: seq<string>)
    ensures Texts(CarriedGivens(texts)) == texts
  {
    if texts != [] {
      CarriedGivensTexts(texts[1..]);
      assert CarriedGivens(texts)[1..] == CarriedGivens(texts[1..]);
    }
  }

  lemma {:induction false} CarriedAllGives(name: string, texts: seq<string>, n: string)
    ensures GivenTo(CarriedAll(name, texts), n) == if n == name then CarriedGivens(texts) else []
    ensures PositionalsOf(CarriedAll(name, texts)) == []
    decreases |texts|
  {
    if texts != [] {
      CarriedAllGives(name, texts[1..], n);
      assert CarriedAll(name, texts)[1..] == CarriedAll(name, texts[1..]);
      assert CarriedGivens(texts) == [Carried(texts[0])] + CarriedGivens(texts[1..]);
    }
  }

  lemma {:induction false} PositionalsConcat(a: seq<Event>, b: seq<Event>)
    ensures PositionalsOf(a + b) == PositionalsOf(a) + PositionalsOf(b)
    decreases |a|
  {
    if a == [] {
      assert a + b == b;
    } else {
      PositionalsConcat(a[1..], b);
      assert (a + b)[1..] == a[1..] + b;
    }
  }

  lemma {:induction false} GivenConcat(a: seq<Event>, b: seq<Event>, n: string)
    ensures GivenTo(a + b, n) == GivenTo(a, n) + GivenTo(b, n)
    decreases |a|
  {
    if a == [] {
      assert a + b == b;
    } else {
      GivenConcat(a[1..], b, n);
      assert (a + b)[1..] == a[1..] + b;
    }
  }

  lemma {:induction false} OccurrencesOf(order: seq<string>, options: map<string, Value>, n: string)
    requires forall m | m in order :: m in options
    requires forall i, j | 0 <= i < j < |order| :: order[i] != order[j]
    ensures GivenTo(AllOccurrences(order, options), n)
         == if n in order then GivenTo(Occurrences(n, options[n]), n) else []
    ensures PositionalsOf(AllOccurrences(order, options)) == []
    decreases |order|
  {
    if order != [] {
      var m := order[0];
      OccurrencesOf(order[1..], options, n);
      GivenConcat(Occurrences(m, options[m]), AllOccurrences(order[1..], options), n);
      PositionalsConcat(Occurrences(m, options[m]), AllOccurrences(order[1..], options));
      OccurrencesGive(m, options[m], n);
      assert n in order <==> n == m || n in order[1..];
      assert n == m ==> n !in order[1..];
    }
  }

  lemma OccurrencesGive(name: string, v: Value, n: string)
    ensures n != name ==> GivenTo(Occurrences(name, v), n) == []
    ensures PositionalsOf(Occurrences(name, v)) == []
    ensures Texts(GivenTo(Occurrences(name, v), name)) == ValueTexts(v)
    ensures v.Flag? ==> GivenTo(Occurrences(name, v), name) == [Bare]
    ensures v.Single? ==> GivenTo(Occurrences(name, v), name) == [Carried(v.text)]
    ensures v.Many? ==> |GivenTo(Occurrences(name, v), name)| == |v.texts|
  {
    match v {
      case Flag =>
        assert [FlagGiven(name, Bare)][1..] == [] && [Bare][1..] == [];
      case Single(text) =>
        assert [FlagGiven(name, Carried(text))][1..] == [] && [Carried(text)][1..] == [];
      case Many(texts) =>
        CarriedAllGives(name, texts, n);
        CarriedAllGives(name, texts, name);
        CarriedGivensTexts(texts);
    }
  }

  /** Printing what was parsed and parsing it again gives the same parse, in every option order. */
  lemma PrintThenParse(argv: seq<string>, p: Parsed, order: seq<string>)
    requires Meaning(argv) == Ok(p) && Enumerates(order, p)
    ensures Meaning(Print(order, p)) == Ok(p)
  {
    var es := Events(argv).value;
    EventsParseable(argv, es);
    RecordAllParseable(NOTHING, es);
    var tail := ["--"] + p.positionals;
    assert Print(order, p) == PrintOptions(order, p.options) + tail;
    ReadOptions(order, p, tail);
    assert tail[1..] == p.positionals;
    var printed := AllOccurrences(order, p.options) + Positionals(p.positionals);
    assert Events(Print(order, p)) == Ok(printed);
    var q := RecordAll(NOTHING, printed);
    forall n
      ensures n in q.options <==> n in p.options
      ensures n in p.options ==> q.options[n] == p.options[n]
      ensures q.positionals == p.positionals
    {
      SamePrinted(p, order, n);
    }
    assert q.options == p.options;
    SamePrinted(p, order, "");
    assert q == p;
  }

  lemma PrintedEvents(p: Parsed, order: seq<string>, n: string)
    requires Parseable(p) && Enumerates(order, p)
    ensures var es := AllOccurrences(order, p.options) + Positionals(p.positionals);
      && GivenTo(es, n) == (if n in p.options then GivenTo(Occurrences(n, p.options[n]), n) else [])
      && PositionalsOf(es) == p.positionals
  {
    GivenConcat(AllOccurrences(order, p.options), Positionals(p.positionals), n);
    PositionalsConcat(AllOccurrences(order, p.options), Positionals(p.positionals));
    PositionalsOnly(p.positionals);
    OccurrencesOf(order, p.options, n);
  }

  lemma SamePrinted(p: Parsed, order: seq<string>, n: string)
    requires Parseable(p) && Enumerates(order, p)
    ensures
      var q := RecordAll(NOTHING, AllOccurrences(order, p.options) + Positionals(p.positionals));
      && (n in q.options <==> n in p.options)
      && (n in p.options ==> q.options[n] == p.options[n])
      && q.positionals == p.positionals
  {
    RecordedInOrder(NOTHING, AllOccurrences(order, p.options) + Positionals(p.positionals), n);
    PrintedEvents(p, order, n);
    if n in p.options {
      OccurrencesGive(n, p.options[n], n);
    }
  }
}
