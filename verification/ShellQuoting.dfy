/** Shell quoting of command lines and pasted paths, against a tokenizer for the POSIX shell's words. */
module ShellQuoting {
  import opened Common

  predicate IsAsciiAlphanumeric(c: char) {
    'a' <= c <= 'z' || 'A' <= c <= 'Z' || '0' <= c <= '9'
  }

  predicate IsSafeCommandChar(c: char) {
    IsAsciiAlphanumeric(c) || c in "_-./:="
  }

  predicate IsSafeShellPathChar(c: char) {
    IsAsciiAlphanumeric(c) || c in "_./:@%+=,-"
  }

  /** `value` with each quote closed, escaped and reopened, as it stands between the outer quotes. */
  function QuotedBody(value: string): string {
    if value == "" then "" else (if value[0] == '\'' then "'\\''" else [value[0]]) + QuotedBody(value[1..])
  }

  function SingleQuoted(value: string): string {
    "'" + QuotedBody(value) + "'"
  }

  lemma {:induction false} QuotedBodySnoc(value: string, c: char)
    ensures QuotedBody(value + [c]) == QuotedBody(value) + if c == '\'' then "'\\''" else [c]
  {
    if value == "" {
      assert [c][1..] == "";
    } else {
      assert (value + [c])[1..] == value[1..] + [c];
      QuotedBodySnoc(value[1..], c);
    }
  }

  method ShellSingleQuote(value: string) returns (quoted: string)
    ensures quoted == SingleQuoted(value)
  {
    quoted := "'";
    var i := 0;
    while i < |value|
      invariant 0 <= i <= |value|
      invariant quoted == "'" + QuotedBody(value[..i])
    {
      assert value[..i + 1] == value[..i] + [value[i]];
      QuotedBodySnoc(value[..i], value[i]);
      if value[i] == '\'' {
        quoted := quoted + "'\\''";
      } else {
        quoted := quoted + [value[i]];
      }
      i := i + 1;
    }
    assert value[..i] == value;
    quoted := quoted + "'";
  }

  function ShellQuote(value: string): string {
    if value == "" then "''"
    else if forall i :: 0 <= i < |value| ==> IsSafeCommandChar(value[i]) then value
    else SingleQuoted(value)
  }

  function QuoteAll(words: seq<string>): seq<string> {
    seq(|words|, i requires 0 <= i < |words| => ShellQuote(words[i]))
  }

  function ShellCommandLine(command: string, args: seq<string>): string {
    JoinedBySpace([ShellQuote(command)] + QuoteAll(args))
  }

  function QuoteTerminalPathForPaste(path: string): string {
    if forall i :: 0 <= i < |path| ==> IsSafeShellPathChar(path[i]) then path else SingleQuoted(path)
  }

  // ----- the reference tokenizer -----

  /** Between words, in the unquoted part of a word, or inside single quotes. */
  datatype Mode = Between | InWord | InQuotes

  /** Unquoted, these are operators, start an expansion, a pattern or a double-quoted string, or end a line. */
  predicate IsSpecial(c: char) {
    c in "|&;<>()$`\"*?[\n"
  }

  /**
    * Sections 2.2.1 (escape character), 2.2.2 (single quotes) and 2.3 (token recognition) of the POSIX
    * Shell Command Language. Anything that those sections leave to other parts of the shell gives None,
    * so a result means that the text is plain words and nothing else.
    */
  function Tokenize(text: string, mode: Mode, word: string): Option<seq<string>>
    decreases |text|
  {
    if text == "" then
      match mode
      case Between => Some([])
      case InWord => Some([word])
      case InQuotes => None
    else
      var c, rest := text[0], text[1..];
      if mode == InQuotes then
        if c == '\'' then Tokenize(rest, InWord, word) else Tokenize(rest, InQuotes, word + [c])
      else if c == ' ' || c == '\t' then
        if mode == Between then Tokenize(rest, Between, "")
        else
          var later := Tokenize(rest, Between, "");
          if later.None? then None else Some([word] + later.value)
      else
        var sofar := if mode == Between then "" else word;
        if c == '\'' then Tokenize(rest, InQuotes, sofar)
        else if c == '\\' then
          if rest == "" then None
          else if rest[0] == '\n' then Tokenize(rest[1..], mode, word)
          else Tokenize(rest[1..], InWord, sofar + [rest[0]])
        else if IsSpecial(c) || (mode == Between && (c == '#' || c == '~')) then None
        else Tokenize(rest, InWord, sofar + [c])
  }

  function Words(text: string): Option<seq<string>> {
    Tokenize(text, Between, "")
  }

  // ----- quoting survives the tokenizer -----

  predicate Literal(c: char) {
    !IsSpecial(c) && c !in " \t'\\#~"
  }

  /** A run of characters that mean themselves. */
  lemma {:induction false} LiteralRun(value: string, rest: string, mode: Mode, word: string)
    requires mode != InQuotes && value != ""
    requires forall i :: 0 <= i < |value| ==> Literal(value[i])
    ensures Tokenize(value + rest, mode, word) == Tokenize(rest, InWord, (if mode == Between then "" else word) + value)
    decreases |value|
  {
    var sofar := (if mode == Between then "" else word) + [value[0]];
    assert (value + rest)[1..] == value[1..] + rest;
    if |value| == 1 {
      assert value == [value[0]];
      assert value[1..] + rest == rest;
    } else {
      LiteralRun(value[1..], rest, InWord, sofar);
      assert sofar + value[1..] == (if mode == Between then "" else word) + value;
    }
  }

  /** Inside single quotes every string comes back as it was, quotes included. */
  lemma {:induction false} QuotedRun(value: string, rest: string, word: string)
    ensures Tokenize(QuotedBody(value) + "'" + rest, InQuotes, word) == Tokenize(rest, InWord, word + value)
    decreases |value|
  {
    var text := QuotedBody(value) + "'" + rest;
    if value == "" {
      assert text[1..] == rest;
      assert word + value == word;
    } else {
      var tail := QuotedBody(value[1..]) + "'" + rest;
      QuotedRun(value[1..], rest, word + [value[0]]);
      assert word + [value[0]] + value[1..] == word + value;
      if value[0] == '\'' {
        assert text == "'\\''" + tail;
        EscapedQuote(tail, word);
      } else {
        assert text == [value[0]] + tail;
        assert text[1..] == tail;
      }
    }
  }

  lemma EscapedQuote(tail: string, word: string)
    ensures Tokenize("'\\''" + tail, InQuotes, word) == Tokenize(tail, InQuotes, word + "'")
  {
    var text := "'\\''" + tail;
    assert text[1..] == "\\''" + tail;
    var escaped, reopened := "\\''" + tail, "'" + tail;
    assert Tokenize(text, InQuotes, word) == Tokenize(escaped, InWord, word);
    assert escaped[1..][0] == '\'' && escaped[1..][1..] == reopened && reopened[1..] == tail;
    assert Tokenize(escaped, InWord, word) == Tokenize(reopened, InWord, word + "'");
  }

  lemma SingleQuotedRun(value: string, rest: string, mode: Mode)
    requires mode == Between
    ensures Tokenize(SingleQuoted(value) + rest, mode, "") == Tokenize(rest, InWord, value)
  {
    var text := SingleQuoted(value) + rest;
    assert text[1..] == QuotedBody(value) + "'" + rest;
    QuotedRun(value, rest, "");
    assert "" + value == value;
  }

  lemma ShellQuoteRun(value: string, rest: string)
    ensures Tokenize(ShellQuote(value) + rest, Between, "") == Tokenize(rest, InWord, value)
  {
    if value == "" {
      assert ShellQuote(value) == SingleQuoted(value);
      SingleQuotedRun(value, rest, Between);
    } else if forall i :: 0 <= i < |value| ==> IsSafeCommandChar(value[i]) {
      forall i | 0 <= i < |value| ensures Literal(value[i]) { assert IsSafeCommandChar(value[i]); }
      LiteralRun(value, rest, Between, "");
      assert "" + value == value;
    } else {
      SingleQuotedRun(value, rest, Between);
    }
  }

  lemma WordThenSpace(word: string, later: string)
    requires Words(later).Some?
    ensures Words(ShellQuote(word) + (" " + later)) == Some([word] + Words(later).value)
  {
    ShellQuoteRun(word, " " + later);
    assert (" " + later)[1..] == later;
  }

  lemma {:induction false} JoinedWordsTokenize(words: seq<string>)
    requires words != []
    ensures Words(JoinedBySpace(QuoteAll(words))) == Some(words)
  {
    var quoted := QuoteAll(words);
    if |words| == 1 {
      ShellQuoteRun(words[0], "");
      assert quoted[0] + "" == quoted[0] && [words[0]] == words;
    } else {
      assert quoted[1..] == QuoteAll(words[1..]);
      JoinedWordsTokenize(words[1..]);
      WordThenSpace(words[0], JoinedBySpace(quoted[1..]));
      assert JoinedBySpace(quoted) == ShellQuote(words[0]) + (" " + JoinedBySpace(quoted[1..]));
      assert [words[0]] + words[1..] == words;
    }
  }

  /** The shell splits a command line into exactly the command and its arguments, whatever they contain. */
  lemma CommandLineRoundTrip(command: string, args: seq<string>)
    ensures Words(ShellCommandLine(command, args)) == Some([command] + args)
  {
    JoinedWordsTokenize([command] + args);
    assert QuoteAll([command] + args) == [ShellQuote(command)] + QuoteAll(args);
    assert ShellCommandLine(command, args) == JoinedBySpace(QuoteAll([command] + args));
  }

  /** A pasted path is read back as one word if and only if it is not empty. */
  lemma PastedPathRoundTrip(path: string)
    ensures Words(QuoteTerminalPathForPaste(path)) == Some([path]) <==> path != ""
  {
    var quoted := QuoteTerminalPathForPaste(path);
    assert quoted + "" == quoted;
    if path != "" {
      if forall i :: 0 <= i < |path| ==> IsSafeShellPathChar(path[i]) {
        forall i | 0 <= i < |path| ensures Literal(path[i]) { assert IsSafeShellPathChar(path[i]); }
        LiteralRun(path, "", Between, "");
        assert "" + path == path;
      } else {
        SingleQuotedRun(path, "", Between);
      }
    }
  }

  // ----- what is quoted at all -----

  predicate IsWithin(value: string, others: string) {
    forall i :: 0 <= i < |value| ==>
      'a' <= value[i] <= 'z' || 'A' <= value[i] <= 'Z' || '0' <= value[i] <= '9' || value[i] in others
  }

  /** `text` is `value` between single quotes, each quote inside written as three more characters. */
  predicate IsQuoting(text: string, value: string) {
    && |text| >= 2 && text[0] == '\'' && text[|text| - 1] == '\''
    && |text| == 2 + |value| + 3 * Quotes(value)
  }

  function Quotes(value: string): nat {
    if value == "" then 0 else (if value[0] == '\'' then 1 else 0) + Quotes(value[1..])
  }

  lemma {:induction false} QuotedLength(value: string)
    ensures |QuotedBody(value)| == |value| + 3 * Quotes(value)
  {
    if value != "" { QuotedLength(value[1..]); }
  }

  /** A word is quoted exactly when it is empty or has a character besides letters, digits and `_-./:=`. */
  lemma QuotedExactly(value: string)
    ensures if value != "" && IsWithin(value, "_-./:=") then ShellQuote(value) == value
            else IsQuoting(ShellQuote(value), value) && ShellQuote(value) != value
  {
    QuotedLength(value);
  }

  /** A pasted path likewise, with its own list of plain characters, but an empty one is left empty. */
  lemma PastedPathQuotedExactly(path: string)
    ensures var pasted := QuoteTerminalPathForPaste(path);
            if IsWithin(path, "_./:@%+=,-") then pasted == path else IsQuoting(pasted, path) && pasted != path
  {
    QuotedLength(path);
  }
}
