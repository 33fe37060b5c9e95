/** How argument vectors are read: token by token, in either spelling of a value, and which vectors are refused. */
module CommandReading {
  import opened Lists
  import opened Text
  import opened CommandLine

  // ---------------------------------------------------------------- reading on

  /** The vector is read to its end, and no token ends the flags. */
  ghost predicate ReadsAs(front: seq<string>, es: seq<Event>) { "--" !in front && Events(front) == Ok(es) }

  /** What a flag token names before any `=`. */
  ghost predicate Assigns(token: string, name: string, text: string) {
    token == "--" + name + "=" + text && '=' !in name
  }

  ghost predicate Bares(token: string, name: string) {
    token == "--" + name && name != "" && '=' !in name
  }

  lemma SplitAtEquals(token: string) returns (name: string, text: string)
    requires "--" <= token && token != "--"
    ensures Assigns(token, name, text) || (Bares(token, name) && text == "")
    ensures Assigns(token, name, text) && name == "" ==> IsNameless(token)
  {
    var body := token[2..];
    var eq := EqualsAt(body);
    name := body[..eq];
    assert token == "--" + body;
    if eq < |body| {
      text := body[eq + 1..];
      assert body == name + "=" + text;
      assert token == "--" + name + "=" + text;
      assert name == "" ==> token[..3] == "--=";
    } else {
      text := "";
      assert body == name;
      assert '=' !in name;
      assert |"--" + name + "=" + text| == |token| + 1;
    }
  }

  lemma ReadPlain(text: string, rest: seq<string>)
    requires !("--" <= text)
    ensures Events([text] + rest) == Prepend(Positional(text), Events(rest))
  {
    assert ([text] + rest)[1..] == rest;
  }

  lemma ReadCarried(argv: seq<string>, name: string, text: string, rest: seq<string>)
    requires |argv| >= 2 && argv[2..] == rest && argv[1] == text && !("--" <= text)
    requires argv[0] != "--" && IsFlagToken(argv[0]) && argv[0][2..] == name
    requires name != "" && EqualsAt(name) == |name| && name[..|name|] == name && !IsBoolean(name)
    ensures Events(argv) == Prepend(FlagGiven(name, Carried(text)), Events(rest))
  {
  }

  /** A value in the next token. */
  lemma ReadSpaced(name: string, text: string, rest: seq<string>)
    requires name != "" && '=' !in name && !IsBoolean(name) && !("--" <= text)
    ensures Events(["--" + name, text] + rest) == Prepend(FlagGiven(name, Carried(text)), Events(rest))
  {
    var token := "--" + name;
    BareToken(token, name);
    assert ([token, text] + rest)[2..] == rest;
    ReadCarried([token, text] + rest, name, text, rest);
  }

  ghost predicate IsNameless(token: string) { |token| >= 3 && token[..3] == "--=" }

  /** The flag takes a value, and no token follows that could be one. */
  ghost predicate LacksValue(argv: seq<string>, at: nat, name: string)
    requires at < |argv|
  {
    && Bares(argv[at], name) && !IsBoolean(name)
    && (at + 1 == |argv| || "--" <= argv[at + 1])
  }

  /** The first token cannot be read on from. */
  ghost predicate Stuck(argv: seq<string>, e: ArgError)
    requires argv != []
  {
    || (IsNameless(argv[0]) && e == InvalidFlag(argv[0]))
    || exists name :: LacksValue(argv, 0, name) && e == ValueRequired(name)
  }

  lemma Nameless(argv: seq<string>)
    requires argv != [] && IsNameless(argv[0])
    ensures Events(argv) == Err(InvalidFlag(argv[0]))
  {
    var token := argv[0];
    assert token[..2] == token[..3][..2] && token[2] == token[..3][2];
    assert "--" <= token && token != "--" && token[2..][0] == '=';
  }

  lemma Valueless(argv: seq<string>, name: string)
    requires argv != [] && LacksValue(argv, 0, name)
    ensures Events(argv) == Err(ValueRequired(name))
  {
    BareToken(argv[0], name);
    NoValue(argv, name);
  }

  lemma NoValue(argv: seq<string>, name: string)
    requires argv != [] && argv[0] != "--" && IsFlagToken(argv[0]) && argv[0][2..] == name
    requires name != "" && EqualsAt(name) == |name| && name[..|name|] == name && !IsBoolean(name)
    requires |argv| == 1 || IsFlagToken(argv[1])
    ensures Events(argv) == Err(ValueRequired(name))
  {
  }

  lemma StuckFails(argv: seq<string>, e: ArgError)
    requires argv != [] && Stuck(argv, e)
    ensures Events(argv) == Err(e)
  {
    if IsNameless(argv[0]) && e == InvalidFlag(argv[0]) {
      Nameless(argv);
    } else {
      var name :| LacksValue(argv, 0, name) && e == ValueRequired(name);
      Valueless(argv, name);
    }
  }

  ghost predicate Reads(argv: seq<string>, event: Event, rest: seq<string>) {
    Events(argv) == Prepend(event, Events(rest))
  }

  /** The first `n` tokens are one event, whatever follows them. */
  ghost predicate Yields(argv: seq<string>, n: nat, event: Event)
    requires n <= |argv|
  {
    forall rest :: Reads(argv[..n] + rest, event, rest)
  }

  lemma YieldsPlain(argv: seq<string>)
    requires argv != [] && !IsFlagToken(argv[0])
    ensures Yields(argv, 1, Positional(argv[0]))
  {
    assert argv[..1] == [argv[0]];
    forall rest { ReadPlain(argv[0], rest); }
  }

  lemma YieldsAssigned(argv: seq<string>, name: string, text: string)
    requires argv != [] && name != "" && Assigns(argv[0], name, text)
    ensures Yields(argv, 1, FlagGiven(name, Carried(text)))
  {
    assert argv[..1] == ["--" + name + "=" + text];
    forall rest { ReadAssignment(name, text, rest); }
  }

  lemma YieldsBare(argv: seq<string>, name: string)
    requires argv != [] && Bares(argv[0], name) && IsBoolean(name)
    ensures Yields(argv, 1, FlagGiven(name, Bare))
  {
    assert argv[..1] == ["--" + name];
    forall rest { ReadBare(name, rest); }
  }

  lemma YieldsSpaced(argv: seq<string>, name: string)
    requires |argv| >= 2 && Bares(argv[0], name) && !IsBoolean(name) && !("--" <= argv[1])
    ensures Yields(argv, 2, FlagGiven(name, Carried(argv[1])))
  {
    assert argv[..2] == ["--" + name, argv[1]];
    forall rest { ReadSpaced(name, argv[1], rest); }
  }

  /** Unless it ends the flags or gets stuck, a vector starts with one event. */
  lemma FirstEvent(argv: seq<string>) returns (event: Event, n: nat)
    requires argv != [] && argv[0] != "--" && forall e :: !Stuck(argv, e)
    ensures 1 <= n <= |argv| && "--" !in argv[..n] && Yields(argv, n, event)
  {
    if !IsFlagToken(argv[0]) {
      YieldsPlain(argv);
      return Positional(argv[0]), 1;
    }
    var name, text := SplitAtEquals(argv[0]);
    assert !Stuck(argv, InvalidFlag(argv[0]));
    if Assigns(argv[0], name, text) {
      YieldsAssigned(argv, name, text);
      return FlagGiven(name, Carried(text)), 1;
    }
    if IsBoolean(name) {
      YieldsBare(argv, name);
      return FlagGiven(name, Bare), 1;
    }
    assert !LacksValue(argv, 0, name) by {
      assert !Stuck(argv, ValueRequired(name));
    }
    YieldsSpaced(argv, name);
    event, n := FlagGiven(name, Carried(argv[1])), 2;
  }

  lemma YieldThenRead(front: seq<string>, es: seq<Event>, n: nat, event: Event)
    requires ReadsAs(front, es) && 1 <= n <= |front| && Yields(front, n, event)
    ensures es != [] && es == [event] + es[1..] && ReadsAs(front[n..], es[1..])
  {
    assert front[..n] + front[n..] == front;
    assert Reads(front, event, front[n..]);
  }

  lemma YieldsBefore(front: seq<string>, n: nat, event: Event, rest: seq<string>)
    requires n <= |front| && Yields(front, n, event)
    ensures Reads(front + rest, event, front[n..] + rest)
  {
    assert front[..n] + (front[n..] + rest) == front + rest;
  }

  lemma YieldsBehind(argv: seq<string>, n: nat, event: Event, e: ArgError)
    requires n <= |argv| && Yields(argv, n, event) && Events(argv) == Err(e)
    ensures Events(argv[n..]) == Err(e)
  {
    assert argv[..n] + argv[n..] == argv;
    assert Reads(argv, event, argv[n..]);
  }

  lemma {:induction false} ReadsOn(front: seq<string>, es: seq<Event>, rest: seq<string>)
    requires ReadsAs(front, es)
    ensures Events(front + rest) == Concat(es, Events(rest))
    decreases |front|
  {
    if front == [] {
      assert front + rest == rest;
      ConcatNothing(Events(rest));
    } else {
      forall e
        ensures !Stuck(front, e)
      {
        if Stuck(front, e) {
          StuckFails(front, e);
        }
      }
      var event, n := FirstEvent(front);
      YieldThenRead(front, es, n, event);
      ReadsOn(front[n..], es[1..], rest);
      YieldsBefore(front, n, event, rest);
      ConcatCons(event, es[1..], Events(rest));
    }
  }

  /**
   * The two spellings of a value agree: wherever a flag that takes one stands, the next token serves as its value
   * exactly as if it were written behind a `=`.
   */
  lemma SpellingsAgree(front: seq<string>, es: seq<Event>, name: string, value: string, rest: seq<string>)
    requires ReadsAs(front, es)
    requires name != "" && '=' !in name && !IsBoolean(name) && !("--" <= value)
    ensures Meaning(front + ["--" + name, value] + rest) == Meaning(front + ["--" + name + "=" + value] + rest)
  {
    ReadSpaced(name, value, rest);
    ReadAssignment(name, value, rest);
    ReadsOn(front, es, ["--" + name, value] + rest);
    ReadsOn(front, es, ["--" + name + "=" + value] + rest);
    assert front + ["--" + name, value] + rest == front + (["--" + name, value] + rest);
    assert front + ["--" + name + "=" + value] + rest == front + (["--" + name + "=" + value] + rest);
  }

  // ---------------------------------------------------------------- what is refused

  /** The vector is read up to a token that cannot be read on from. */
  ghost predicate RefusedAt(argv: seq<string>, at: nat, e: ArgError) {
    at < |argv| && (exists es :: ReadsAs(argv[..at], es)) && Stuck(argv[at..], e)
  }

  lemma RefusalShows(argv: seq<string>, at: nat, e: ArgError)
    requires RefusedAt(argv, at, e)
    ensures Events(argv) == Err(e)
  {
    var es :| ReadsAs(argv[..at], es);
    assert argv == argv[..at] + argv[at..];
    ReadsOn(argv[..at], es, argv[at..]);
    StuckFails(argv[at..], e);
  }

  /** A refusal behind tokens that can be read is the refusal of the whole. */
  lemma RefusedLater(argv: seq<string>, n: nat, event: Event, at: nat, e: ArgError)
    requires 1 <= n <= |argv| && "--" !in argv[..n] && Yields(argv, n, event) && RefusedAt(argv[n..], at, e)
    ensures RefusedAt(argv, n + at, e)
  {
    var es :| ReadsAs(argv[n..][..at], es);
    assert argv[..n + at] == argv[..n] + argv[n..][..at];
    assert ReadsAs(argv[..n + at], [event] + es);
    assert argv[n..][at..] == argv[n + at..];
  }

  lemma {:induction false} RefusalHasPlace(argv: seq<string>, e: ArgError) returns (at: nat)
    requires Events(argv) == Err(e)
    ensures RefusedAt(argv, at, e)
    decreases |argv|
  {
    if x :| Stuck(argv, x) {
      StuckFails(argv, x);
      assert ReadsAs(argv[..0], []) && argv[0..] == argv;
      at := 0;
    } else {
      var event, n := FirstEvent(argv);
      YieldsBehind(argv, n, event, e);
      var later := RefusalHasPlace(argv[n..], e);
      RefusedLater(argv, n, event, later, e);
      at := n + later;
    }
  }

  /**
   * Exactly when a vector is refused: it can be read up to a token that starts with `--=`, or up to a flag that takes
   * a value and is last or followed by another flag token.
   */
  lemma WhenRefused(argv: seq<string>, e: ArgError)
    ensures Meaning(argv) == Err(e) <==> exists at: nat :: RefusedAt(argv, at, e)
  {
    if Events(argv) == Err(e) {
      var at := RefusalHasPlace(argv, e);
    }
    forall at: nat | RefusedAt(argv, at, e)
      ensures Events(argv) == Err(e)
    {
      RefusalShows(argv, at, e);
    }
  }

  /** Everything behind `--` is positional, whatever it looks like. */
  lemma BehindDoubleDash(front: seq<string>, es: seq<Event>, texts: seq<string>)
    requires ReadsAs(front, es)
    ensures Meaning(front + ["--"] + texts).Ok?
    ensures var p, q := Meaning(front).value, Meaning(front + ["--"] + texts).value;
      q.options == p.options && q.positionals == p.positionals + texts
  {
    var tail := ["--"] + texts;
    assert tail[1..] == texts;
    assert front + ["--"] + texts == front + tail;
    ReadsOn(front, es, tail);
    assert Events(tail) == Ok(Positionals(texts));
    RecordTexts(NOTHING, es, texts);
  }

  lemma {:induction false} RecordTexts(p: Parsed, es: seq<Event>, texts: seq<string>)
    ensures var q := RecordAll(p, es);
      RecordAll(p, es + Positionals(texts)) == q.(positionals := q.positionals + texts)
    decreases |es|, |texts|
  {
    if es != [] {
      assert (es + Positionals(texts))[1..] == es[1..] + Positionals(texts);
      RecordTexts(Record(p, es[0]), es[1..], texts);
    } else if texts == [] {
      assert es + Positionals(texts) == [] && p.positionals + texts == p.positionals;
    } else {
      var next := Record(p, Positional(texts[0]));
      assert (es + Positionals(texts))[0] == Positional(texts[0]);
      assert (es + Positionals(texts))[1..] == [] + Positionals(texts[1..]);
      RecordTexts(next, [], texts[1..]);
      assert p.positionals + [texts[0]] + texts[1..] == p.positionals + texts;
    }
  }

  // ---------------------------------------------------------------- repeatable flags

  /** The values that are not blank, in order and without white space at their ends. */
  ghost predicate Trimmed(texts: seq<string>, idx: seq<nat>, values: seq<string>) {
    && |idx| == |values| && Increasing(idx)
    && (forall k | 0 <= k < |idx| :: idx[k] < |texts| && TrimsTo(texts[idx[k]], values[k]))
    && (forall i: nat | i < |texts| :: i in idx <==> !AllSpace(texts[i]))
  }

  ghost predicate Picked(texts: seq<string>, idx: seq<nat>, values: seq<string>) {
    && |idx| == |values| && Increasing(idx)
    && (forall k | 0 <= k < |idx| :: idx[k] < |texts| && values[k] == Trim(texts[idx[k]]))
    && (forall i: nat | i < |texts| :: i in idx <==> !AllSpace(texts[i]))
  }

  lemma PickedIsTrimmed(texts: seq<string>, idx: seq<nat>, values: seq<string>)
    requires Picked(texts, idx, values)
    ensures Trimmed(texts, idx, values)
  {
    forall k | 0 <= k < |idx|
      ensures TrimsTo(texts[idx[k]], values[k])
    {
      TrimIs(texts[idx[k]]);
    }
  }

  lemma {:induction false} NonBlankSnoc(texts: seq<string>, text: string)
    ensures NonBlank(texts + [text]) == NonBlank(texts) + if AllSpace(text) then [] else [Trim(text)]
    decreases |texts|
  {
    TrimIs(text);
    if texts == [] {
      assert texts + [text] == [text] && [text][1..] == [];
    } else {
      assert (texts + [text])[1..] == texts[1..] + [text];
      NonBlankSnoc(texts[1..], text);
    }
  }

  lemma PickedMore(front: seq<string>, text: string, idx: seq<nat>, values: seq<string>)
    requires Picked(front, idx, values)
    ensures AllSpace(text) ==> Picked(front + [text], idx, values)
    ensures !AllSpace(text) ==> Picked(front + [text], idx + [|front|], values + [Trim(text)])
  {
    var all := front + [text];
    assert forall i | 0 <= i < |front| :: all[i] == front[i];
    assert |front| !in idx by {
      assert forall k | 0 <= k < |idx| :: idx[k] < |front|;
    }
  }

  lemma {:induction false} NonBlankIs(texts: seq<string>) returns (idx: seq<nat>)
    ensures Picked(texts, idx, NonBlank(texts))
    decreases |texts|
  {
    if texts == [] {
      idx := [];
    } else {
      var front, last := texts[..|texts| - 1], texts[|texts| - 1];
      assert texts == front + [last];
      idx := NonBlankIs(front);
      NonBlankSnoc(front, last);
      PickedMore(front, last, idx, NonBlank(front));
      idx := if AllSpace(last) then idx else idx + [|front|];
    }
  }

  /** What a repeatable flag reads as: its values that are not blank, trimmed, in the order they were given. */
  lemma WhatARepeatableFlagReads(argv: seq<string>, es: seq<Event>, p: Parsed, name: string)
    requires Events(argv) == Ok(es) && Meaning(argv) == Ok(p)
    ensures var texts := Texts(GivenTo(es, name));
      match RepeatableStringFlag(p.options, name)
      case None => forall i | 0 <= i < |texts| :: AllSpace(texts[i])
      case Some(values) => values != [] && exists idx :: Trimmed(texts, idx, values)
  {
    RepeatableFlagReads(argv, es, p, name);
    var texts := Texts(GivenTo(es, name));
    var idx := NonBlankIs(texts);
    PickedIsTrimmed(texts, idx, NonBlank(texts));
    assert NonBlank(texts) == [] ==> forall i: nat | i < |texts| :: i !in idx;
  }
}
