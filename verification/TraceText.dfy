/** The text of a trace: numbers, whitespace-separated fields and lines, written and read back. */
module TraceText {
  import opened Common

  // ----- numbers -----

  function Digit(d: int): char
    requires 0 <= d < 10
  {
    "0123456789"[d]
  }

  predicate IsDigit(c: char) {
    '0' <= c <= '9'
  }

  predicate AllDigits(text: string) {
    forall i :: 0 <= i < |text| ==> IsDigit(text[i])
  }

  function Decimal(n: nat): string {
    if n < 10 then [Digit(n)] else Decimal(n / 10) + [Digit(n % 10)]
  }

  function Value(digits: string): nat
    requires AllDigits(digits)
  {
    if digits == "" then 0
    else
      var last := digits[|digits| - 1];
      assert IsDigit(last);
      Value(digits[..|digits| - 1]) * 10 + (last as int - '0' as int) as nat
  }

  /** How an unsigned number is parsed: an optional plus sign, then at least one digit, no overflow. */
  function ParseUnsigned(text: string, max: nat): Option<nat> {
    ParseDigits(if text != "" && text[0] == '+' then text[1..] else text, max)
  }

  function ParseDigits(digits: string, max: nat): Option<nat> {
    if digits == "" || !AllDigits(digits) then None
    else if Value(digits) > max then None
    else Some(Value(digits))
  }

  lemma {:induction false} DecimalValue(n: nat)
    ensures Decimal(n) != "" && AllDigits(Decimal(n))
    ensures Value(Decimal(n)) == n
  {
    if n >= 10 {
      DecimalValue(n / 10);
      assert Decimal(n)[..|Decimal(n)| - 1] == Decimal(n / 10);
    } else {
      assert Decimal(n)[..0] == "";
    }
  }

  lemma DecimalRoundTrip(n: nat, max: nat)
    ensures ParseUnsigned(Decimal(n), max) == if n <= max then Some(n) else None
  {
    DecimalValue(n);
    assert IsDigit(Decimal(n)[0]);
  }

  // ----- fields -----

  /** The White_Space property of the Unicode character database. */
  predicate IsWhitespace(c: char) {
    || '\t' <= c <= '\r' || c == ' ' || c == '\U{85}' || c == '\U{A0}' || c == '\U{1680}'
    || '\U{2000}' <= c <= '\U{200A}' || c == '\U{2028}' || c == '\U{2029}' || c == '\U{202F}'
    || c == '\U{205F}' || c == '\U{3000}'
  }

  predicate NoWhitespace(text: string) {
    forall i :: 0 <= i < |text| ==> !IsWhitespace(text[i])
  }

  predicate IsField(text: string) {
    text != "" && NoWhitespace(text)
  }

  ghost predicate AreFields(fields: seq<string>) {
    forall i :: 0 <= i < |fields| ==> IsField(fields[i])
  }

  /** The source's `split_whitespace`, with `field` read so far. */
  function SplitWhitespace(text: string, field: string): seq<string> {
    if text == "" then Finished(field)
    else if IsWhitespace(text[0]) then Finished(field) + SplitWhitespace(text[1..], "")
    else SplitWhitespace(text[1..], field + [text[0]])
  }

  function Finished(field: string): seq<string> {
    if field == "" then [] else [field]
  }

  lemma {:induction false} SplitField(word: string, rest: string, field: string)
    requires NoWhitespace(word)
    ensures SplitWhitespace(word + rest, field) == SplitWhitespace(rest, field + word)
    decreases |word|
  {
    if word == "" {
      assert word + rest == rest && field + word == field;
    } else {
      assert (word + rest)[1..] == word[1..] + rest;
      SplitField(word[1..], rest, field + [word[0]]);
      assert field + [word[0]] + word[1..] == field + word;
    }
  }

  /** A field and a space, then the fields of the rest. */
  lemma SplitFirst(word: string, rest: string)
    requires IsField(word)
    ensures SplitWhitespace(word + " " + rest, "") == [word] + SplitWhitespace(rest, "")
  {
    var tail := " " + rest;
    assert word + " " + rest == word + tail && "" + word == word;
    SplitField(word, tail, "");
    assert tail[1..] == rest && IsWhitespace(tail[0]);
  }

  lemma SplitLast(word: string)
    requires IsField(word)
    ensures SplitWhitespace(word, "") == [word]
  {
    SplitField(word, "", "");
    assert word + "" == word && "" + word == word;
  }

  /** Fields joined by spaces split into the same fields. */
  lemma {:induction false} SplitJoined(words: seq<string>)
    requires AreFields(words)
    ensures SplitWhitespace(JoinedBySpace(words), "") == words
  {
    if |words| == 1 {
      SplitLast(words[0]);
    } else if words != [] {
      SplitFirst(words[0], JoinedBySpace(words[1..]));
      SplitJoined(words[1..]);
      assert [words[0]] + words[1..] == words;
    }
  }

  lemma {:induction false} SplitGivesFields(text: string, field: string)
    requires NoWhitespace(field)
    ensures AreFields(SplitWhitespace(text, field))
    decreases |text|
  {
    if text != "" {
      SplitGivesFields(text[1..], if IsWhitespace(text[0]) then "" else field + [text[0]]);
    }
  }

  /** The first field of `fields` that starts with `prefix`, without it. */
  function FindValue(fields: seq<string>, prefix: string): Option<string> {
    if fields == [] then None
    else if prefix <= fields[0] then Some(fields[0][|prefix|..])
    else FindValue(fields[1..], prefix)
  }

  function TraceValue(line: string, key: string): Option<string> {
    FindValue(SplitWhitespace(line, ""), key + "=")
  }

  lemma FindSkips(fields: seq<string>, prefix: string)
    requires fields != [] && prefix != "" && fields[0] != "" && fields[0][0] != prefix[0]
    ensures FindValue(fields, prefix) == FindValue(fields[1..], prefix)
  {
  }

  lemma FindHits(fields: seq<string>, prefix: string, value: string)
    requires fields != [] && fields[0] == prefix + value
    ensures FindValue(fields, prefix) == Some(value)
  {
    assert (prefix + value)[|prefix|..] == value;
  }

  lemma {:induction false} FoundValueHasNoWhitespace(fields: seq<string>, prefix: string)
    requires AreFields(fields)
    ensures FindValue(fields, prefix).Some? ==> NoWhitespace(FindValue(fields, prefix).value)
  {
    if fields != [] && !(prefix <= fields[0]) {
      FoundValueHasNoWhitespace(fields[1..], prefix);
    }
  }

  // ----- lines -----

  function StripCr(line: string): string {
    if line != "" && line[|line| - 1] == '\r' then line[..|line| - 1] else line
  }

  /** The source's `lines`, with `line` read so far. */
  function Lines(text: string, line: string): seq<string> {
    if text == "" then Finished(line)
    else if text[0] == '\n' then [StripCr(line)] + Lines(text[1..], "")
    else Lines(text[1..], line + [text[0]])
  }

  predicate IsLine(line: string) {
    && (forall i :: 0 <= i < |line| ==> line[i] != '\n')
    && (line != "" ==> line[|line| - 1] != '\r')
  }

  lemma {:induction false} LineRun(line: string, rest: string, sofar: string)
    requires forall i :: 0 <= i < |line| ==> line[i] != '\n'
    ensures Lines(line + "\n" + rest, sofar) == [StripCr(sofar + line)] + Lines(rest, "")
    decreases |line|
  {
    var text := line + "\n" + rest;
    if line == "" {
      assert text[1..] == rest && sofar + line == sofar;
    } else {
      assert text[1..] == line[1..] + "\n" + rest;
      LineRun(line[1..], rest, sofar + [line[0]]);
      assert sofar + [line[0]] + line[1..] == sofar + line;
    }
  }

  function Unlines(lines: seq<string>): string {
    if lines == [] then "" else lines[0] + "\n" + Unlines(lines[1..])
  }

  lemma {:induction false} LinesOfUnlines(lines: seq<string>)
    requires forall i :: 0 <= i < |lines| ==> IsLine(lines[i])
    ensures Lines(Unlines(lines), "") == lines
  {
    if lines != [] {
      LineRun(lines[0], Unlines(lines[1..]), "");
      assert "" + lines[0] == lines[0] && [lines[0]] + lines[1..] == lines;
      LinesOfUnlines(lines[1..]);
    }
  }

  /** Text that stays within one line. */
  predicate IsPlain(text: string) {
    forall i :: 0 <= i < |text| ==> text[i] != '\n' && text[i] != '\r'
  }

  lemma {:induction false} JoinedIsPlain(words: seq<string>)
    requires forall i :: 0 <= i < |words| ==> IsPlain(words[i])
    ensures IsPlain(JoinedBySpace(words))
  {
    if |words| > 1 {
      JoinedIsPlain(words[1..]);
    }
  }

  lemma PlainIsLine(text: string)
    requires IsPlain(text)
    ensures IsLine(text)
  {
  }

  lemma NoWhitespaceIsPlain(text: string)
    requires NoWhitespace(text)
    ensures IsPlain(text)
  {
    assert IsWhitespace('\n') && IsWhitespace('\r');
  }

  // ----- what the readers accept besides what was written -----

  /** A number may have a plus sign and leading zeros; without a digit, or with anything else, it is none. */
  lemma ParsedNumbers(text: string, max: nat)
    requires text == "" || text[0] != '+'
    ensures ParseUnsigned("+" + text, max) == ParseUnsigned(text, max)
    ensures text == "" ==> ParseUnsigned(text, max).None?
    ensures (exists i :: 0 <= i < |text| && !('0' <= text[i] <= '9')) ==> ParseUnsigned(text, max).None?
    ensures ParseUnsigned(text, max).Some? ==> ParseUnsigned("0" + text, max) == ParseUnsigned(text, max)
  {
    assert ("+" + text)[0] == '+' && ("+" + text)[1..] == text;
    if AllDigits(text) {
      LeadingZero(text);
      assert ("0" + text)[0] == '0';
    }
  }

  lemma {:induction false} LeadingZero(digits: string)
    requires AllDigits(digits)
    ensures AllDigits("0" + digits)
    ensures Value("0" + digits) == Value(digits)
  {
    var more := "0" + digits;
    if digits == "" {
      assert more[..0] == "";
    } else {
      var front := digits[..|digits| - 1];
      assert more[..|more| - 1] == "0" + front;
      LeadingZero(front);
    }
  }

  /** Any whitespace separates fields, and any amount of it. */
  lemma {:induction false} SplitAtWhitespace(blanks: string, rest: string)
    requires forall i :: 0 <= i < |blanks| ==> IsWhitespace(blanks[i])
    ensures SplitWhitespace(blanks + rest, "") == SplitWhitespace(rest, "")
    ensures forall word :: IsField(word) && blanks != "" ==>
              SplitWhitespace(word + (blanks + rest), "") == [word] + SplitWhitespace(rest, "")
  {
    if blanks == "" {
      assert blanks + rest == rest;
    } else {
      TailOfConcat(blanks, rest);
      SplitAtWhitespace(blanks[1..], rest);
      assert [] + SplitWhitespace(rest, "") == SplitWhitespace(rest, "");
      forall word | IsField(word) ensures SplitWhitespace(word + (blanks + rest), "") == [word] + SplitWhitespace(rest, "") {
        SplitField(word, blanks + rest, "");
        assert "" + word == word;
      }
    }
  }

  /** A line ends at LF or CR LF; one CR goes, any other stays, and so does one at the very end. */
  lemma LineEnds(line: string, rest: string)
    requires forall i :: 0 <= i < |line| ==> line[i] != '\n'
    ensures Lines(line + "\r" + "\n" + rest, "") == [line] + Lines(rest, "")
    ensures line != "" && line[|line| - 1] != '\r' ==> Lines(line + "\n" + rest, "") == [line] + Lines(rest, "")
    ensures line != "" ==> Lines(line, "") == [line]
  {
    LineRun(line + "\r", rest, "");
    LineRun(line, rest, "");
    assert "" + line == line && "" + (line + "\r") == line + "\r" && (line + "\r")[..|line|] == line;
    UnendedLine(line, "");
  }

  lemma {:induction false} UnendedLine(line: string, sofar: string)
    requires forall i :: 0 <= i < |line| ==> line[i] != '\n'
    ensures Lines(line, sofar) == Finished(sofar + line)
    decreases |line|
  {
    if line == "" {
      assert sofar + line == sofar;
    } else {
      UnendedLine(line[1..], sofar + [line[0]]);
      assert sofar + [line[0]] + line[1..] == sofar + line;
    }
  }
}
