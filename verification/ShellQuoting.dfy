/**
 Quoting a command for a persistent shell (cmd/sta/terminal_tools.go): the text between the
 quotes is made by replacements one after another, and the shell must decode it to the
 command.  The Bash form uses ANSI-C quoting (Bash Reference Manual, section 3.1.2.4), the
 PowerShell form an expandable string.
 */
module ShellQuoting {
  import opened Common

  /** strings.ReplaceAll for a pattern of one character. */
  function ReplaceAll(s: string, c: char, put: string): string {
    if s == "" then "" else (if s[0] == c then put else [s[0]]) + ReplaceAll(s[1..], c, put)
  }

  lemma Associates(a: string, b: string, c: string)
    ensures a + (b + c) == a + b + c
  {}

  lemma Regroup(a: string, b: string, c: string, d: string)
    ensures a + b + c + d == a + (b + c + d)
  {}

  lemma {:induction false} ReplaceAllSplits(a: string, b: string, c: char, put: string)
    ensures ReplaceAll(a + b, c, put) == ReplaceAll(a, c, put) + ReplaceAll(b, c, put)
  {
    if a == "" {
      assert a + b == b;
    } else {
      ReplaceAllSplits(a[1..], b, c, put);
      assert (a + b)[1..] == a[1..] + b;
      Associates(if a[0] == c then put else [a[0]], ReplaceAll(a[1..], c, put), ReplaceAll(b, c, put));
    }
  }

  lemma ReplaceOne(c: char, from: char, put: string)
    ensures ReplaceAll([c], from, put) == if c == from then put else [c]
  {
    assert [c][1..] == "" && put + "" == put;
  }

  lemma ReplaceTwo(c: char, d: char, from: char, put: string)
    requires c != from && d != from
    ensures ReplaceAll([c, d], from, put) == [c, d]
  {
    ReplaceOne(d, from, put);
    assert [c, d][1..] == [d];
  }

  // ---------- Bash ----------

  function Quoted(command: string): string {
    var a := ReplaceAll(command, '\\', "\\\\");
    var b := ReplaceAll(a, '\'', "\\'");
    var c := ReplaceAll(b, '\r', "\\r");
    ReplaceAll(c, '\n', "\\n")
  }

  function Escaped(c: char): string {
    if c == '\\' then "\\\\" else if c == '\'' then "\\'" else if c == '\r' then "\\r" else if c == '\n' then "\\n" else [c]
  }

  function EscapedAll(s: string): string {
    if s == "" then "" else Escaped(s[0]) + EscapedAll(s[1..])
  }

  lemma QuotedSplits(a: string, b: string)
    ensures Quoted(a + b) == Quoted(a) + Quoted(b)
  {
    var a1, b1 := ReplaceAll(a, '\\', "\\\\"), ReplaceAll(b, '\\', "\\\\");
    var a2, b2 := ReplaceAll(a1, '\'', "\\'"), ReplaceAll(b1, '\'', "\\'");
    var a3, b3 := ReplaceAll(a2, '\r', "\\r"), ReplaceAll(b2, '\r', "\\r");
    ReplaceAllSplits(a, b, '\\', "\\\\");
    ReplaceAllSplits(a1, b1, '\'', "\\'");
    ReplaceAllSplits(a2, b2, '\r', "\\r");
    ReplaceAllSplits(a3, b3, '\n', "\\n");
  }

  lemma QuotedOne(c: char)
    ensures Quoted([c]) == Escaped(c)
  {
    ReplaceOne(c, '\\', "\\\\");
    if c == '\\' {
      ReplaceTwo('\\', '\\', '\'', "\\'");
      ReplaceTwo('\\', '\\', '\r', "\\r");
      ReplaceTwo('\\', '\\', '\n', "\\n");
    } else {
      ReplaceOne(c, '\'', "\\'");
      if c == '\'' {
        ReplaceTwo('\\', '\'', '\r', "\\r");
        ReplaceTwo('\\', '\'', '\n', "\\n");
      } else {
        ReplaceOne(c, '\r', "\\r");
        if c == '\r' { ReplaceTwo('\\', 'r', '\n', "\\n"); } else { ReplaceOne(c, '\n', "\\n"); }
      }
    }
  }

  /** The replacements, one after another, are one escape per character. */
  lemma {:induction false} ReplacementsArePerCharacter(command: string)
    ensures Quoted(command) == EscapedAll(command)
  {
    if command != "" {
      assert command == [command[0]] + command[1..];
      QuotedSplits([command[0]], command[1..]);
      QuotedOne(command[0]);
      ReplacementsArePerCharacter(command[1..]);
    }
  }

  /** What an ANSI-C quoted string stands for, and the text behind its closing quote. */
  datatype Decoded = Unclosed | Closed(value: string, rest: string)

  function Prepend(c: char, d: Decoded): Decoded {
    if d.Closed? then Closed([c] + d.value, d.rest) else Unclosed
  }

  function SimpleEscape(c: char): Option<char> {
    match c
    case 'a' => Some('\U{7}') case 'b' => Some('\U{8}') case 'e' => Some('\U{1B}') case 'E' => Some('\U{1B}')
    case 'f' => Some('\U{C}') case 'n' => Some('\n') case 'r' => Some('\r') case 't' => Some('\t') case 'v' => Some('\U{B}')
    case '\\' => Some('\\') case '\'' => Some('\'') case '"' => Some('"') case '?' => Some('?')
    case _ => None
  }

  /** Decodes the text behind `$'`; numeric and control escapes, which the quoting never writes, are not read. */
  function DecodeAnsiC(text: string): Decoded {
    if text == "" then Unclosed
    else if text[0] == '\'' then Closed("", text[1..])
    else if text[0] != '\\' then Prepend(text[0], DecodeAnsiC(text[1..]))
    else if |text| >= 2 && SimpleEscape(text[1]).Some? then Prepend(SimpleEscape(text[1]).value, DecodeAnsiC(text[2..]))
    else Unclosed
  }

  /** Bash reads back exactly the command, and the quote that closes it is the one behind the text. */
  lemma {:induction false} BashReadsTheCommand(command: string, rest: string)
    ensures DecodeAnsiC(Quoted(command) + "'" + rest) == Closed(command, rest)
  {
    ReplacementsArePerCharacter(command);
    EscapesDecode(command, rest);
  }

  lemma EscapeDecodes(c: char, tail: string)
    ensures DecodeAnsiC(Escaped(c) + tail) == Prepend(c, DecodeAnsiC(tail))
  {
    var text := Escaped(c) + tail;
    if |Escaped(c)| == 2 { assert text[2..] == tail; } else { assert text[1..] == tail; }
  }

  lemma EscapedStarts(s: string, rest: string)
    requires s != ""
    ensures EscapedAll(s) + "'" + rest == Escaped(s[0]) + (EscapedAll(s[1..]) + "'" + rest)
  {
    Regroup(Escaped(s[0]), EscapedAll(s[1..]), "'", rest);
  }

  lemma {:induction false} EscapesDecode(s: string, rest: string)
    ensures DecodeAnsiC(EscapedAll(s) + "'" + rest) == Closed(s, rest)
  {
    if s == "" {
      assert EscapedAll(s) + "'" + rest == "'" + rest && ("'" + rest)[1..] == rest;
    } else {
      EscapesDecode(s[1..], rest);
      EscapedStarts(s, rest);
      EscapeDecodes(s[0], EscapedAll(s[1..]) + "'" + rest);
      assert s == [s[0]] + s[1..];
    }
  }

  /** The text holds no line break, so that the terminal gets the command as one line. */
  lemma {:induction false} QuotedIsOneLine(command: string)
    ensures '\r' !in Quoted(command) && '\n' !in Quoted(command)
  {
    ReplacementsArePerCharacter(command);
    EscapesAreOneLine(command);
  }

  lemma {:induction false} EscapesAreOneLine(s: string)
    ensures '\r' !in EscapedAll(s) && '\n' !in EscapedAll(s)
  {
    if s != "" { EscapesAreOneLine(s[1..]); }
  }

  // ---------- PowerShell ----------

  function Body(command: string): string {
    var a := ReplaceAll(command, '`', "``");
    var b := ReplaceAll(a, '"', "`\"");
    var c := ReplaceAll(b, '$', "`$");
    var d := ReplaceAll(c, '\r', "");
    ReplaceAll(d, '\n', "`n")
  }

  function Ticked(c: char): string {
    if c == '`' then "``" else if c == '"' then "`\"" else if c == '$' then "`$"
    else if c == '\r' then "" else if c == '\n' then "`n" else [c]
  }

  function TickedAll(s: string): string {
    if s == "" then "" else Ticked(s[0]) + TickedAll(s[1..])
  }

  lemma BodySplits(a: string, b: string)
    ensures Body(a + b) == Body(a) + Body(b)
  {
    var a1, b1 := ReplaceAll(a, '`', "``"), ReplaceAll(b, '`', "``");
    var a2, b2 := ReplaceAll(a1, '"', "`\""), ReplaceAll(b1, '"', "`\"");
    var a3, b3 := ReplaceAll(a2, '$', "`$"), ReplaceAll(b2, '$', "`$");
    var a4, b4 := ReplaceAll(a3, '\r', ""), ReplaceAll(b3, '\r', "");
    ReplaceAllSplits(a, b, '`', "``");
    ReplaceAllSplits(a1, b1, '"', "`\"");
    ReplaceAllSplits(a2, b2, '$', "`$");
    ReplaceAllSplits(a3, b3, '\r', "");
    ReplaceAllSplits(a4, b4, '\n', "`n");
  }

  lemma TwoStay(c: char, d: char)
    requires c !in "\r\n" && d !in "\r\n"
    ensures ReplaceAll(ReplaceAll([c, d], '\r', ""), '\n', "`n") == [c, d]
  {
    ReplaceTwo(c, d, '\r', "");
    ReplaceTwo(c, d, '\n', "`n");
  }

  lemma BodyOne(c: char)
    ensures Body([c]) == Ticked(c)
  {
    ReplaceOne(c, '`', "``");
    if c == '`' {
      ReplaceTwo('`', '`', '"', "`\"");
      ReplaceTwo('`', '`', '$', "`$");
      TwoStay('`', '`');
    } else {
      ReplaceOne(c, '"', "`\"");
      if c == '"' {
        ReplaceTwo('`', '"', '$', "`$");
        TwoStay('`', '"');
      } else {
        ReplaceOne(c, '$', "`$");
        if c == '$' {
          TwoStay('`', '$');
        } else {
          ReplaceOne(c, '\r', "");
          ReplaceOne(c, '\n', "`n");
        }
      }
    }
  }

  lemma {:induction false} TicksArePerCharacter(command: string)
    ensures Body(command) == TickedAll(command)
  {
    if command != "" {
      assert command == [command[0]] + command[1..];
      BodySplits([command[0]], command[1..]);
      BodyOne(command[0]);
      TicksArePerCharacter(command[1..]);
    }
  }

  /** PowerShell takes the typographic double quotes for quotes too. */
  predicate IsTypographic(c: char) {
    '\U{201C}' <= c <= '\U{201E}'
  }

  predicate IsQuote(c: char) {
    c == '"' || IsTypographic(c)
  }

  function Ticks(c: char): char {
    match c
    case '0' => '\U{0}' case 'a' => '\U{7}' case 'b' => '\U{8}' case 'e' => '\U{1B}' case 'f' => '\U{C}'
    case 'n' => '\n' case 'r' => '\r' case 't' => '\t' case 'v' => '\U{B}'
    case _ => c
  }

  /** Decodes the text behind an opening quote.  A `$` that is not escaped would be expanded: not a literal. */
  function DecodeExpandable(text: string): Decoded {
    if text == "" then Unclosed
    else if IsQuote(text[0]) then
      if |text| >= 2 && IsQuote(text[1]) then Prepend(text[1], DecodeExpandable(text[2..])) else Closed("", text[1..])
    else if text[0] == '$' then Unclosed
    else if text[0] != '`' then Prepend(text[0], DecodeExpandable(text[1..]))
    else if |text| >= 2 && text[1] != 'u' then Prepend(Ticks(text[1]), DecodeExpandable(text[2..]))
    else Unclosed
  }

  function WithoutReturns(s: string): string {
    ReplaceAll(s, '\r', "")
  }

  predicate HasTypographic(s: string) {
    exists c | c in s :: IsTypographic(c)
  }

  lemma {:induction false} ReturnsVanish(s: string)
    ensures TickedAll(WithoutReturns(s)) == TickedAll(s) && '\r' !in WithoutReturns(s)
    ensures HasTypographic(WithoutReturns(s)) <==> HasTypographic(s)
  {
    if s != "" {
      var front, back := if s[0] == '\r' then "" else [s[0]], WithoutReturns(s[1..]);
      ReturnsVanish(s[1..]);
      assert WithoutReturns(s) == front + back && s == [s[0]] + s[1..];
      assert front != "" ==> (front + back)[1..] == back;
      assert HasTypographic(s) <==> IsTypographic(s[0]) || HasTypographic(s[1..]);
      assert HasTypographic(front + back) <==> HasTypographic(front) || HasTypographic(back);
      if s[0] == '\r' { assert front + back == back && "" + TickedAll(s[1..]) == TickedAll(s[1..]); }
    }
  }

  /** The text behind the closing quote does not start with a quote of its own. */
  predicate Follows(rest: string) {
    rest == "" || !IsQuote(rest[0])
  }

  lemma TextStarts(s: string, rest: string)
    requires s != ""
    ensures TickedAll(s) + "\"" + rest == Ticked(s[0]) + (TickedAll(s[1..]) + "\"" + rest)
  {
    Regroup(Ticked(s[0]), TickedAll(s[1..]), "\"", rest);
  }

  lemma TickDecodes(c: char, tail: string)
    requires c != '\r' && !IsTypographic(c)
    ensures DecodeExpandable(Ticked(c) + tail) == Prepend(c, DecodeExpandable(tail))
  {
    var text := Ticked(c) + tail;
    if |Ticked(c)| == 2 { assert text[2..] == tail; } else { assert text[1..] == tail; }
  }

  lemma QuoteCloses(rest: string)
    requires Follows(rest)
    ensures TickedAll("") + "\"" + rest == "\"" + rest && DecodeExpandable("\"" + rest) == Closed("", rest)
  {
    assert ("\"" + rest)[1..] == rest;
  }

  lemma {:induction false} TicksDecode(s: string, rest: string)
    requires '\r' !in s && !HasTypographic(s) && Follows(rest)
    ensures DecodeExpandable(TickedAll(s) + "\"" + rest) == Closed(s, rest)
  {
    if s == "" {
      QuoteCloses(rest);
    } else {
      assert s == [s[0]] + s[1..] && s[0] in s && forall c | c in s[1..] :: c in s;
      TicksDecode(s[1..], rest);
      TextStarts(s, rest);
      TickDecodes(s[0], TickedAll(s[1..]) + "\"" + rest);
    }
  }

  lemma {:induction false} RestIsShorter(text: string)
    ensures var d := DecodeExpandable(text); d.Closed? ==> |d.rest| < |text|
    decreases |text|
  {
    if text != "" {
      RestIsShorter(text[1..]);
      if |text| >= 2 { RestIsShorter(text[2..]); }
    }
  }

  /** No more comes out than went in, and less if a typographic quote was swallowed. */
  predicate Loses(s: string, d: Decoded, rest: string) {
    d.Closed? && d.rest == rest ==> |d.value| <= |s| && (HasTypographic(s) ==> |d.value| < |s|)
  }

  lemma TypographicDecodes(q: char, tail: string)
    requires IsTypographic(q) && tail != ""
    ensures DecodeExpandable([q] + tail) == if IsQuote(tail[0]) then Prepend(tail[0], DecodeExpandable(tail[1..])) else Closed("", tail)
  {
    var text := [q] + tail;
    assert text[1..] == tail && text[2..] == tail[1..];
  }

  /** A typographic quote closes the string early, or is swallowed together with the next one. */
  lemma {:induction false} TypographicBreaks(s: string, rest: string)
    requires '\r' !in s && Follows(rest)
    ensures Loses(s, DecodeExpandable(TickedAll(s) + "\"" + rest), rest)
    decreases |s|
  {
    if s == "" {
      QuoteCloses(rest);
    } else {
      var tail := TickedAll(s[1..]) + "\"" + rest;
      TextStarts(s, rest);
      assert s[0] in s && s == [s[0]] + s[1..];
      if !IsTypographic(s[0]) {
        TypographicBreaks(s[1..], rest);
        TickDecodes(s[0], tail);
      } else {
        TypographicDecodes(s[0], tail);
        if s[1..] == "" {
          QuoteCloses(rest);
          assert tail[1..] == rest;
          RestIsShorter(rest);
        } else if IsQuote(tail[0]) {
          TextStarts(s[1..], rest);
          assert IsTypographic(s[1]) && s[1..][1..] == s[2..];
          assert tail[1..] == TickedAll(s[2..]) + "\"" + rest;
          TypographicBreaks(s[2..], rest);
        }
      }
    }
  }

  /** PowerShell reads back the command without its carriage returns exactly if it has no typographic quote. */
  lemma PowerShellReadsTheCommand(command: string, rest: string)
    requires Follows(rest)
    ensures DecodeExpandable(Body(command) + "\"" + rest) == Closed(WithoutReturns(command), rest) <==> !HasTypographic(command)
  {
    TicksArePerCharacter(command);
    ReturnsVanish(command);
    if HasTypographic(command) {
      TypographicBreaks(WithoutReturns(command), rest);
    } else {
      TicksDecode(WithoutReturns(command), rest);
    }
  }
}
