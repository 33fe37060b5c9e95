/** Quoting arguments for a POSIX shell, and the shell that reads them back. */
module ShellQuoting {
  import opened Text

  /** `value.replace(/'/g, "'\\''")`. */
  function EscapeQuotes(value: string): string {
    if value == [] then []
    else (if value[0] == '\'' then "'\\''" else [value[0]]) + EscapeQuotes(value[1..])
  }

  function ShellQuote(value: string): string { "'" + EscapeQuotes(value) + "'" }

  /** How the shell reads the next character: outside quotes, between single quotes, or after a backslash. */
  datatype Mode = Plain | Quoted | Escaped

  predicate IsBlank(c: char) { c == ' ' || c == '\t' }

  /** Characters that mean something else to the shell when they stand outside quotes. */
  predicate IsActive(c: char) { c in "|&;<>()$`\"*?[#~=%\n" }

  function Finish(word: Option<string>): seq<string> {
    match word case None => [] case Some(w) => [w]
  }

  function Extend(word: Option<string>, text: string): Option<string> {
    match word case None => Some(text) case Some(w) => Some(w + text)
  }

  function Before(words: seq<string>, rest: Option<seq<string>>): Option<seq<string>> {
    match rest case None => None case Some(more) => Some(words + more)
  }

  /**
   * Splits a command line into words by sections 2.2.1 and 2.2.2 of the POSIX.1-2017 Shell Command
   * Language: a backslash outside quotes preserves the next character (or joins lines), single quotes
   * preserve everything up to the next single quote. `None`: an unfinished quote or an active character.
   */
  function ReadWords(line: string, mode: Mode, word: Option<string>): Option<seq<string>> {
    if line == [] then (if mode.Plain? then Some(Finish(word)) else None)
    else
      var c, rest := line[0], line[1..];
      match mode
      case Quoted => if c == '\'' then ReadWords(rest, Plain, word) else ReadWords(rest, Quoted, Extend(word, [c]))
      case Escaped => ReadWords(rest, Plain, if c == '\n' then word else Extend(word, [c]))
      case Plain =>
        if c == '\'' then ReadWords(rest, Quoted, Extend(word, ""))
        else if c == '\\' then ReadWords(rest, Escaped, word)
        else if IsBlank(c) then Before(Finish(word), ReadWords(rest, Plain, None))
        else if IsActive(c) then None
        else ReadWords(rest, Plain, Extend(word, [c]))
  }

  /** Inside the quotes, escaped text reads as itself. */
  lemma {:induction false} QuotedTextReads(value: string, rest: string, word: string)
    ensures ReadWords(EscapeQuotes(value) + "'" + rest, Quoted, Some(word))
         == ReadWords(rest, Plain, Some(word + value))
    decreases |value|
  {
    var line := EscapeQuotes(value) + "'" + rest;
    if value == [] {
      assert line == ['\''] + rest && word + value == word;
    } else {
      var tail := EscapeQuotes(value[1..]) + "'" + rest;
      var w := word + [value[0]];
      QuotedTextReads(value[1..], rest, w);
      assert w + value[1..] == word + value;
      if value[0] == '\'' {
        assert line == ['\''] + (['\\'] + (['\''] + (['\''] + tail)));
        LeavesAndReenters(tail, word);
      } else {
        assert line == [value[0]] + tail;
      }
    }
  }

  /** The sequence quote, backslash, quote, quote adds one literal quote. */
  lemma LeavesAndReenters(tail: string, word: string)
    ensures ReadWords(['\''] + (['\\'] + (['\''] + (['\''] + tail))), Quoted, Some(word))
         == ReadWords(tail, Quoted, Some(word + ['\'']))
  {
    var l4 := tail;
    var l3 := ['\''] + l4;
    var l2 := ['\''] + l3;
    var l1 := ['\\'] + l2;
    var l0 := ['\''] + l1;
    assert l0[1..] == l1 && l1[1..] == l2 && l2[1..] == l3 && l3[1..] == l4;
    assert ReadWords(l0, Quoted, Some(word)) == ReadWords(l1, Plain, Some(word));
    assert ReadWords(l1, Plain, Some(word)) == ReadWords(l2, Escaped, Some(word));
    assert ReadWords(l2, Escaped, Some(word)) == ReadWords(l3, Plain, Some(word + ['\'']));
    assert word + ['\''] + "" == word + ['\''];
    assert ReadWords(l3, Plain, Some(word + ['\''])) == ReadWords(l4, Quoted, Some(word + ['\'']));
  }

  /** A quoted value reads as one word, whatever it contains and whatever follows it. */
  lemma QuoteReadsAsOneWord(value: string, rest: string)
    ensures ReadWords(ShellQuote(value) + rest, Plain, None) == ReadWords(rest, Plain, Some(value))
  {
    var line := ShellQuote(value) + rest;
    assert line == ['\''] + (EscapeQuotes(value) + "'" + rest);
    QuotedTextReads(value, rest, "");
    assert "" + value == value;
  }

  /** A printed command: every argument quoted, one space between arguments. */
  function CommandText(arguments: seq<string>): string {
    if arguments == [] then ""
    else if |arguments| == 1 then ShellQuote(arguments[0])
    else ShellQuote(arguments[0]) + " " + CommandText(arguments[1..])
  }

  /** The shell reads a printed command back as exactly its arguments. */
  lemma {:induction false} CommandReadsBack(arguments: seq<string>)
    ensures ReadWords(CommandText(arguments), Plain, None) == Some(arguments)
    decreases |arguments|
  {
    if |arguments| == 1 {
      QuoteReadsAsOneWord(arguments[0], "");
      assert ShellQuote(arguments[0]) + "" == ShellQuote(arguments[0]);
      assert arguments == [arguments[0]];
    } else if |arguments| > 1 {
      var rest := [' '] + CommandText(arguments[1..]);
      CommandReadsBack(arguments[1..]);
      QuoteReadsAsOneWord(arguments[0], rest);
      assert CommandText(arguments) == ShellQuote(arguments[0]) + rest;
      assert rest[1..] == CommandText(arguments[1..]);
      assert arguments == [arguments[0]] + arguments[1..];
    }
  }
}
