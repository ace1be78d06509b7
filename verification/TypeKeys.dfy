/**
 Property names in generated types (cmd/sta/codemode_prompt.go): a name that is not an
 identifier is written by Go's strconv.Quote and read as a TypeScript string literal.  The two
 notations do not agree on every escape.
 */
module TypeKeys {
  import opened Common

  predicate IsLetter(c: char) {
    'a' <= c <= 'z' || 'A' <= c <= 'Z' || c == '_' || c == '$'
  }

  predicate IsIdentifier(name: string) {
    name != "" && forall i | 0 <= i < |name| :: IsLetter(name[i]) || (i > 0 && '0' <= name[i] <= '9')
  }

  // ---------- Hexadecimal digits ----------

  function Digit(n: nat): char
    requires n < 16
  {
    if n < 10 then '0' + n as char else 'a' + (n - 10) as char
  }

  function DigitValue(c: char): Option<nat> {
    if '0' <= c <= '9' then Some((c - '0') as nat)
    else if 'a' <= c <= 'f' then Some((c - 'a') as nat + 10)
    else if 'A' <= c <= 'F' then Some((c - 'A') as nat + 10)
    else None
  }

  function Hex(n: nat, width: nat): (s: string)
    ensures |s| == width
  {
    if width == 0 then "" else Hex(n / 16, width - 1) + [Digit(n % 16)]
  }

  function HexValue(s: string): Option<nat> {
    if s == "" then Some(0)
    else
      var front, last := HexValue(s[..|s| - 1]), DigitValue(s[|s| - 1]);
      if front.Some? && last.Some? then Some(front.value * 16 + last.value) else None
  }

  function Power(width: nat): nat {
    if width == 0 then 1 else 16 * Power(width - 1)
  }

  lemma {:induction false} HexReadsBack(n: nat, width: nat)
    requires n < Power(width)
    ensures HexValue(Hex(n, width)) == Some(n)
  {
    if width > 0 {
      HexReadsBack(n / 16, width - 1);
      var s := Hex(n, width);
      assert s[..|s| - 1] == Hex(n / 16, width - 1);
    }
  }

  // ---------- Writing ----------

  /** What strconv.Quote writes for a character; `printable` is unicode.IsPrint. */
  function Escape(c: char, printable: char -> bool): string {
    if c == '"' || c == '\\' then ['\\', c]
    else if printable(c) then [c]
    else if c == '\U{7}' then "\\a"
    else if c == '\U{8}' then "\\b"
    else if c == '\U{C}' then "\\f"
    else if c == '\n' then "\\n"
    else if c == '\r' then "\\r"
    else if c == '\t' then "\\t"
    else if c == '\U{B}' then "\\v"
    else if c < ' ' || c == '\U{7F}' then "\\x" + Hex(c as nat, 2)
    else if c <= '\U{FFFF}' then "\\u" + Hex(c as nat, 4)
    else "\\U" + Hex(c as nat, 8)
  }

  function EscapeAll(s: string, printable: char -> bool): string {
    if s == "" then "" else Escape(s[0], printable) + EscapeAll(s[1..], printable)
  }

  function KeyText(name: string, printable: char -> bool): string {
    if IsIdentifier(name) then name else "\"" + EscapeAll(name, printable) + "\""
  }

  // ---------- Reading ----------

  function Simple(c: char): char {
    match c
    case 'b' => '\U{8}' case 'f' => '\U{C}' case 'n' => '\n' case 'r' => '\r' case 't' => '\t' case 'v' => '\U{B}'
    case _ => c
  }

  function Prepend(c: char, r: Option<string>): Option<string> {
    if r.Some? then Some([c] + r.value) else None
  }

  predicate IsScalar(n: nat) {
    n < 0xD800 || 0xE000 <= n < 0x11_0000
  }

  function HexEscape(text: string, width: nat): Option<char>
    requires |text| >= width
  {
    var n := HexValue(text[..width]);
    if n.Some? && IsScalar(n.value) then Some(n.value as char) else None
  }

  /**
   Reads a TypeScript string literal behind its opening quote; it must end with the text.
   An escape without a meaning of its own stands for its letter.  Braced and octal escapes,
   and surrogate pairs, are not read.
   */
  function ReadLiteral(text: string): Option<string>
    decreases |text|
  {
    if text == "" || text[0] == '\n' || text[0] == '\r' then None
    else if text[0] == '"' then if |text| == 1 then Some("") else None
    else if text[0] != '\\' then Prepend(text[0], ReadLiteral(text[1..]))
    else if |text| == 1 then None
    else if text[1] == 'x' then
      if |text| >= 4 && HexEscape(text[2..], 2).Some? then Prepend(HexEscape(text[2..], 2).value, ReadLiteral(text[4..])) else None
    else if text[1] == 'u' then
      if |text| >= 6 && HexEscape(text[2..], 4).Some? then Prepend(HexEscape(text[2..], 4).value, ReadLiteral(text[6..])) else None
    else if '0' <= text[1] <= '9' || text[1] == '\n' || text[1] == '\r' then None
    else Prepend(Simple(text[1]), ReadLiteral(text[2..]))
  }

  /** An identifier name of ASCII characters, by their codes (ECMA-262 section 12.7). */
  predicate IsName(text: string) {
    text != "" && !(48 <= text[0] as int <= 57) &&
    forall c | c in text ::
      c == '$' || c == '_' || 48 <= c as int <= 57 || 65 <= c as int <= 90 || 97 <= c as int <= 122
  }

  function ReadKey(text: string): Option<string> {
    if IsName(text) then Some(text)
    else if text != "" && text[0] == '"' then ReadLiteral(text[1..])
    else None
  }

  // ---------- When they agree ----------

  /** No printable character is a control character. */
  ghost predicate Sensible(printable: char -> bool) {
    forall c: char :: printable(c) ==> c >= ' ' && c != '\U{7F}'
  }

  /** The escapes that TypeScript does not share: bell, and unprintable characters beyond 16 bits. */
  predicate Foreign(c: char, printable: char -> bool) {
    !printable(c) && (c == '\U{7}' || c > '\U{FFFF}')
  }

  /** What TypeScript reads for a character. */
  function Image(c: char, printable: char -> bool): string {
    if !Foreign(c, printable) then [c] else if c == '\U{7}' then "a" else "U" + Hex(c as nat, 8)
  }

  function ImageAll(s: string, printable: char -> bool): string {
    if s == "" then "" else Image(s[0], printable) + ImageAll(s[1..], printable)
  }

  function Append(s: string, r: Option<string>): Option<string> {
    if r.Some? then Some(s + r.value) else None
  }

  lemma DigitReads(c: char, tail: string)
    requires DigitValue(c).Some?
    ensures ReadLiteral([c] + tail) == Prepend(c, ReadLiteral(tail))
  {
    assert ([c] + tail)[1..] == tail;
  }

  lemma {:induction false} PlainDigits(digits: string, tail: string)
    requires forall i | 0 <= i < |digits| :: DigitValue(digits[i]).Some?
    ensures ReadLiteral(digits + tail) == Append(digits, ReadLiteral(tail))
  {
    if digits == "" {
      assert digits + tail == tail;
      assert ReadLiteral(tail).Some? ==> "" + ReadLiteral(tail).value == ReadLiteral(tail).value;
    } else {
      PlainDigits(digits[1..], tail);
      assert digits + tail == [digits[0]] + (digits[1..] + tail);
      DigitReads(digits[0], digits[1..] + tail);
      var r := ReadLiteral(tail);
      if r.Some? { assert [digits[0]] + (digits[1..] + r.value) == digits + r.value; }
    }
  }

  lemma {:induction false} HexIsDigits(n: nat, width: nat)
    ensures forall i | 0 <= i < width :: DigitValue(Hex(n, width)[i]).Some?
  {
    if width > 0 { HexIsDigits(n / 16, width - 1); }
  }

  lemma HexEscapeReads(c: char, width: nat, tail: string)
    requires c as nat < Power(width) && IsScalar(c as nat)
    ensures HexEscape(Hex(c as nat, width) + tail, width) == Some(c)
  {
    HexReadsBack(c as nat, width);
    assert (Hex(c as nat, width) + tail)[..width] == Hex(c as nat, width);
  }

  lemma ShortEscapeReads(c: char, tail: string, printable: char -> bool)
    requires Sensible(printable) && |Escape(c, printable)| <= 2
    ensures ReadLiteral(Escape(c, printable) + tail) == Append(Image(c, printable), ReadLiteral(tail))
  {
    var text := Escape(c, printable) + tail;
    if |Escape(c, printable)| == 1 { assert text[1..] == tail; } else { assert text[2..] == tail; }
  }

  lemma ByteEscapeReads(c: char, tail: string)
    requires c as nat < 256
    ensures ReadLiteral("\\x" + Hex(c as nat, 2) + tail) == Append([c], ReadLiteral(tail))
  {
    var text := "\\x" + Hex(c as nat, 2) + tail;
    assert Power(2) == 256;
    HexEscapeReads(c, 2, tail);
    assert text[2..] == Hex(c as nat, 2) + tail && text[4..] == tail;
  }

  lemma WordEscapeReads(c: char, tail: string)
    requires c <= '\U{FFFF}'
    ensures ReadLiteral("\\u" + Hex(c as nat, 4) + tail) == Append([c], ReadLiteral(tail))
  {
    var text := "\\u" + Hex(c as nat, 4) + tail;
    assert Power(4) == 0x1_0000 by { assert Power(3) == 4096 by { assert Power(2) == 256; } }
    HexEscapeReads(c, 4, tail);
    assert text[2..] == Hex(c as nat, 4) + tail && text[6..] == tail;
  }

  /** The four forms of a written character, and what TypeScript is to read for each. */
  lemma EscapeForms(c: char, printable: char -> bool)
    requires Sensible(printable)
    ensures var e, code := Escape(c, printable), c as nat;
      || |e| <= 2
      || (code < 256 && e == "\\x" + Hex(code, 2) && Image(c, printable) == [c])
      || (c <= '\U{FFFF}' && e == "\\u" + Hex(code, 4) && Image(c, printable) == [c])
      || (e == "\\U" + Hex(code, 8) && Image(c, printable) == "U" + Hex(code, 8))
  {}

  lemma EscapeReads(c: char, tail: string, printable: char -> bool)
    requires Sensible(printable)
    ensures ReadLiteral(Escape(c, printable) + tail) == Append(Image(c, printable), ReadLiteral(tail))
  {
    var e, code := Escape(c, printable), c as nat;
    EscapeForms(c, printable);
    if |e| <= 2 {
      ShortEscapeReads(c, tail, printable);
    } else if code < 256 && e == "\\x" + Hex(code, 2) {
      ByteEscapeReads(c, tail);
    } else if c <= '\U{FFFF}' && e == "\\u" + Hex(code, 4) {
      WordEscapeReads(c, tail);
    } else {
      HexIsDigits(code, 8);
      LongEscapeReads(Hex(code, 8), tail);
    }
  }

  /** The long escape is read as its letters. */
  lemma LongEscapeReads(digits: string, tail: string)
    requires forall i | 0 <= i < |digits| :: DigitValue(digits[i]).Some?
    ensures ReadLiteral("\\U" + digits + tail) == Append("U" + digits, ReadLiteral(tail))
  {
    PlainDigits(digits, tail);
    var text := "\\U" + digits + tail;
    assert text[2..] == digits + tail;
    var r := ReadLiteral(tail);
    if r.Some? { assert ['U'] + (digits + r.value) == "U" + digits + r.value; }
  }

  lemma {:induction false} LiteralReads(s: string, printable: char -> bool)
    requires Sensible(printable)
    ensures ReadLiteral(EscapeAll(s, printable) + "\"") == Some(ImageAll(s, printable))
  {
    if s == "" {
      assert EscapeAll(s, printable) + "\"" == "\"";
    } else {
      var tail := EscapeAll(s[1..], printable) + "\"";
      LiteralReads(s[1..], printable);
      EscapeReads(s[0], tail, printable);
      assert EscapeAll(s, printable) + "\"" == Escape(s[0], printable) + tail;
    }
  }

  lemma {:induction false} ImageIsTheName(s: string, printable: char -> bool)
    ensures ImageAll(s, printable) == s <==> forall c | c in s :: !Foreign(c, printable)
  {
    if s != "" {
      ImageIsTheName(s[1..], printable);
      assert s == [s[0]] + s[1..];
      var image := ImageAll(s, printable);
      if Foreign(s[0], printable) {
        assert image[0] != s[0] && s[0] in s;
      } else {
        assert image == [s[0]] + ImageAll(s[1..], printable);
        assert image[1..] == ImageAll(s[1..], printable);
        assert forall c :: c in s <==> c == s[0] || c in s[1..];
      }
    }
  }

  /** The name that TypeScript reads for a written one. */
  function ReadName(name: string, printable: char -> bool): string {
    if IsIdentifier(name) then name else ImageAll(name, printable)
  }

  lemma QuotedIsNoName(text: string)
    requires text != "" && text[0] == '"'
    ensures !IsName(text)
  {
    assert text[0] in text;
  }

  lemma KeyReads(name: string, printable: char -> bool)
    requires Sensible(printable)
    ensures ReadKey(KeyText(name, printable)) == Some(ReadName(name, printable))
  {
    if !IsIdentifier(name) {
      var body := EscapeAll(name, printable) + "\"";
      assert KeyText(name, printable) == "\"" + body && KeyText(name, printable)[1..] == body;
      QuotedIsNoName(KeyText(name, printable));
      LiteralReads(name, printable);
    }
  }

  /** A name is written bare exactly if it is an identifier name to TypeScript. */
  lemma KeyIsBareExactlyWhen(name: string, printable: char -> bool)
    ensures KeyText(name, printable) == name <==> IsName(name)
  {
    IdentifierIsName(name);
    if !IsIdentifier(name) { EscapesAreNoShorter(name, printable); }
  }

  lemma IdentifierIsName(name: string)
    ensures IsIdentifier(name) <==> IsName(name)
  {
    if IsName(name) {
      forall i | 0 <= i < |name| ensures IsLetter(name[i]) || (i > 0 && '0' <= name[i] <= '9') { assert name[i] in name; }
    }
    if IsIdentifier(name) {
      assert IsLetter(name[0]);
      forall c | c in name
        ensures c == '$' || c == '_' || 48 <= c as int <= 57 || 65 <= c as int <= 90 || 97 <= c as int <= 122
      {
        var i :| 0 <= i < |name| && name[i] == c;
      }
    }
  }

  lemma {:induction false} EscapesAreNoShorter(s: string, printable: char -> bool)
    ensures |EscapeAll(s, printable)| >= |s|
  {
    if s != "" { EscapesAreNoShorter(s[1..], printable); }
  }

  /** No character of the name is written by an escape that TypeScript does not share. */
  predicate Survives(name: string, printable: char -> bool) {
    forall c | c in name :: !Foreign(c, printable)
  }

  lemma ReadNameIsTheName(name: string, printable: char -> bool)
    ensures ReadName(name, printable) == name <==> Survives(name, printable)
  {
    if IsIdentifier(name) {
      assert forall c | c in name :: c != '\U{7}' && c <= '\U{FFFF}';
    } else {
      ImageIsTheName(name, printable);
    }
  }

  /**
   A property name reads back as itself exactly if it has no bell and no unprintable character
   beyond 16 bits.
   */
  lemma KeyReadsBack(name: string, printable: char -> bool)
    requires Sensible(printable)
    ensures ReadKey(KeyText(name, printable)) == Some(name) <==> Survives(name, printable)
  {
    KeyReads(name, printable);
    ReadNameIsTheName(name, printable);
  }

  /** Such a name exists. */
  lemma BellIsLost(printable: char -> bool)
    requires Sensible(printable)
    ensures ReadKey(KeyText("\U{7}", printable)) == Some("a") && ReadName("\U{7}", printable) == "a"
  {
    var name := "\U{7}";
    KeyReads(name, printable);
    assert name[1..] == "";
    assert ImageAll(name, printable) == "a" + ImageAll("", printable) == "a";
  }
}
