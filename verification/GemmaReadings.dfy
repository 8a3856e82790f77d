/** What the argument parser returns on texts given character by character. */
module GemmaReadings {
  import opened Wrappers
  import opened JsonValues
  import opened Numerals
  import opened Whitespace
  import opened GemmaLexical
  import opened GemmaSyntax
  import opened GemmaParser
  import opened GemmaGrammar
  import opened JsonText

  lemma Reads(tree: Tree, text: string)
    requires ValidTree(tree) && Text(tree) == text
    ensures Arguments(text) == Some(Meaning(tree))
  {
    hide ValidTree, Text, Meaning, Arguments;
    assert "" + (text + "") == text;
    LayoutDoesNotMatter(tree, "", "", text);
  }

  // ---------------------------------------------------------------- numbers

  function SignOf(negative: bool): string { if negative then "-" else "" }

  predicate IsWholePart(digits: string) { IsDigits(digits) && (digits[0] == '0' ==> digits == "0") }

  lemma NumberReads(n: Literal, text: string)
    requires IsLiteral(n) && !LeadingZero(n) && LiteralText(n) == text
    ensures Arguments(text) == Some(LiteralValue(n))
  {
    hide IsLiteral, LeadingZero, LiteralText, LiteralValue, Arguments;
    Reads(Number(n), text);
  }

  lemma TextOfParts(n: Literal)
    ensures LiteralText(n) == SignOf(n.negative) + (n.whole + (FractionText(n) + ExponentText(n)))
  {}

  /** A sign and digits are that integer. */
  lemma IntegerRead(negative: bool, digits: string)
    requires IsWholePart(digits)
    ensures Arguments(SignOf(negative) + digits) == Some(Int(Signed(negative, digits)))
  {
    hide Arguments, LiteralText, DigitsValue;
    var n := Literal(negative, digits, None, None);
    TextOfParts(n);
    assert digits + ("" + "") == digits;
    NumberReads(n, SignOf(negative) + digits);
  }

  /** With a fraction, all digits make one integer and the point moves left by the digits of the fraction. */
  lemma FractionRead(negative: bool, whole: string, fraction: string)
    requires IsWholePart(whole) && IsDigits(fraction)
    ensures var r := Arguments(SignOf(negative) + (whole + ("." + fraction)));
      r.Some? && r.value.Float? && IsShifted(r.value.x, Signed(negative, whole + fraction), |fraction|, 0)
  {
    hide Arguments, LiteralText, LiteralValue, IsShifted, Signed, DigitsValue;
    var n := Literal(negative, whole, Some(fraction), None);
    FloatValue(n);
    TextOfParts(n);
    assert "." + fraction + "" == "." + fraction;
    NumberReads(n, SignOf(negative) + (whole + ("." + fraction)));
  }

  /** The exponent moves it on: left after a minus, else right. */
  lemma ExponentRead(negative: bool, whole: string, fraction: string, mark: char, sign: string, digits: string)
    requires IsWholePart(whole) && IsDigits(fraction) && IsDigits(digits)
    requires (mark == 'e' || mark == 'E') && (sign == "" || sign == "+" || sign == "-")
    ensures var r := Arguments(SignOf(negative) + (whole + ("." + fraction + ([mark] + sign + digits))));
      var m, e := Signed(negative, whole + fraction), DigitsValue(digits);
      && r.Some? && r.value.Float?
      && if sign == "-" then IsShifted(r.value.x, m, |fraction| + e, 0) else IsShifted(r.value.x, m, |fraction|, e)
  {
    hide Arguments, LiteralText, LiteralValue, IsShifted, Signed, DigitsValue;
    var n := Literal(negative, whole, Some(fraction), Some(Exponent(mark, sign, digits)));
    FloatValue(n);
    TextOfParts(n);
    NumberReads(n, SignOf(negative) + (whole + ("." + fraction + ([mark] + sign + digits))));
  }

  lemma ZeroFive()
    ensures "0" + "5" == "05" && AllDigits("05") && DigitsValue("05") == 5
  {
    assert "05"[..1] == "0" && "0"[..0] == "";
    assert DigitsValue("0") == 0;
  }

  /** For instance `0.5` is a half. */
  lemma HalfRead()
    ensures Arguments("0.5") == Some(Float(0.5))
  {
    ZeroFive();
    assert SignOf(false) + ("0" + ("." + "5")) == "0.5";
    assert TenTo(0) == 1 && TenTo(1) == 10;
    hide Arguments, DigitsValue, TenTo;
    FractionRead(false, "0", "5");
    var x := Arguments("0.5").value.x;
    assert x * 10.0 == 5.0;
  }

  lemma ZeroLedScalar(n: Literal, text: string)
    requires IsLiteral(n) && LeadingZero(n) && LiteralText(n) == text
    ensures ParseScalar(text) == None
  {
    hide IsLiteral, LiteralText, ScanLiteral;
    LiteralScans(n, "");
    assert text + "" == text;
  }

  /** A leading zero is refused, as `json.loads` refuses it. */
  lemma LeadingZeroRefused(negative: bool, digits: string)
    requires IsDigits(digits) && |digits| > 1 && digits[0] == '0'
    ensures Arguments(SignOf(negative) + digits) == None
  {
    var n := Literal(negative, digits, None, None);
    var text := SignOf(negative) + digits;
    TextOfParts(n);
    assert digits + ("" + "") == digits;
    assert text[0] == if negative then '-' else '0';
    assert Spaces(text) == "" && AfterSpaces(text) == text;
    SolidScalarRefused(n, text);
  }

  lemma SolidScalarRefused(n: Literal, text: string)
    requires IsLiteral(n) && LeadingZero(n) && LiteralText(n) == text && AfterSpaces(text) == text
    requires |text| > 0 && (text[0] == '-' || text[0] == '0')
    ensures Arguments(text) == None
  {
    hide LiteralText, ParseScalar, ParseContainer, ScanString, FindDelimiter, Spaces, AfterSpaces, IsDigits;
    ZeroLedScalar(n, text);
    NotADelimiter(text);
  }

  // ---------------------------------------------------------------- words and strings

  lemma WordsRead()
    ensures Arguments("true") == Some(Bool(true)) && Arguments("false") == Some(Bool(false))
    ensures Arguments("null") == Some(Json.Null)
  {
    hide Arguments;
    Reads(Word(True), "true");
    Reads(Word(False), "false");
    Reads(Word(Constant.Null), "null");
  }

  lemma {:induction false} NoOpening(content: string)
    requires '<' !in content
    ensures FindDelimiter(content).None?
  {
    if |content| >= 5 {
      assert content[..5][0] == content[0];
      NoOpening(content[1..]);
    }
  }

  /** Between its delimiters a text stands for itself. */
  lemma DelimitedRead(content: string)
    requires '<' !in content
    ensures Arguments("<|\"|>" + (content + "<|\"|>")) == Some(Str(content))
  {
    NoOpening(content);
    hide Arguments;
    Reads(Delimited(content), "<|\"|>" + (content + "<|\"|>"));
  }

  lemma HexOne(d: nat)
    requires d < 16
    ensures GemmaLexical.HexValue(HexDigit(d)) == Some(d)
  {}

  lemma HexSum(n: nat)
    requires n < 0x10000
    ensures ((n / 0x1000 * 16 + n / 0x100 % 16) * 16 + n / 16 % 16) * 16 + n % 16 == n
  {
    assert n / 0x100 == n / 0x1000 * 16 + n / 0x100 % 16;
    assert n / 16 == n / 0x100 * 16 + n / 16 % 16;
  }

  lemma HexReads(n: nat, t: string)
    requires n < 0x10000
    ensures Hex4(HexText(n) + t) == Some(n)
  {
    var s := HexText(n) + t;
    HexOne(n / 0x1000);
    HexOne(n / 0x100 % 16);
    HexOne(n / 16 % 16);
    HexOne(n % 16);
    HexSum(n);
    assert s[0] == HexText(n)[0] && s[1] == HexText(n)[1] && s[2] == HexText(n)[2] && s[3] == HexText(n)[3];
    hide HexDigit, GemmaLexical.HexValue;
  }

  lemma UnicodeEscapeScans(n: nat, rest: string)
    requires n < 0xD800 || 0xE000 <= n < 0x10000
    ensures ScanEscape("u" + HexText(n) + rest) == Some((n as char, 5))
  {
    HexReads(n, rest);
    hide Hex4, HexText;
    var s := "u" + HexText(n) + rest;
    assert s[1..] == HexText(n) + rest;
  }

  lemma PairEscapeScans(high: nat, low: nat, rest: string)
    requires 0xD800 <= high < 0xDC00 <= low < 0xE000
    ensures ScanEscape("u" + HexText(high) + ("\\u" + HexText(low)) + rest)
         == Some(((0x10000 + (high - 0xD800) * 0x400 + (low - 0xDC00)) as char, 11))
  {
    HexReads(high, "\\u" + HexText(low) + rest);
    HexReads(low, rest);
    var s := "u" + HexText(high) + ("\\u" + HexText(low)) + rest;
    assert |HexText(high)| == 4 && |HexText(low)| == 4;
    hide Hex4, HexText;
    assert s[1..] == HexText(high) + ("\\u" + HexText(low) + rest);
    assert s[5] == '\\' && s[6] == 'u' && s[7..] == HexText(low) + rest;
  }

  /** One character as `json.dumps` writes it, in front of a scanned string. */
  lemma DumpedCharScans(c: char, tail: string)
    ensures ScanString(EscapedChar(c) + tail) == Prepend(c, |EscapedChar(c)|, ScanString(tail))
  {
    hide ScanEscape, ScanString;
    if 0x20 <= c as int <= 0x7E && c != '"' && c != '\\' {
      PlainStep(c, tail);
    } else {
      hide EscapedChar;
      DumpedEscapeScans(c, tail);
      var e := EscapedChar(c)[1..];
      EscapeStep(e, c, tail);
      assert EscapedChar(c) == "\\" + e;
      assert EscapedChar(c) + tail == "\\" + (e + tail);
    }
  }

  lemma DumpedEscapeScans(c: char, tail: string)
    requires !(0x20 <= c as int <= 0x7E && c != '"' && c != '\\')
    ensures |EscapedChar(c)| > 1 && EscapedChar(c)[0] == '\\'
    ensures ScanEscape(EscapedChar(c)[1..] + tail) == Some((c, |EscapedChar(c)| - 1))
  {
    var n := c as int;
    hide ScanEscape, HexText;
    if SimplyEscaped(c) {
      SimplyEscapedScans(c, tail);
    } else if n < 0x10000 {
      assert EscapedChar(c) == "\\u" + HexText(n) && |EscapedChar(c)| == 6 by { FourDigits(n); }
      assert EscapedChar(c)[1..] == "u" + HexText(n);
      hide EscapedChar;
      UnicodeEscapeScans(n, tail);
    } else {
      var high, low := 0xD800 + (n - 0x10000) / 0x400, 0xDC00 + (n - 0x10000) % 0x400;
      FourDigits(high);
      FourDigits(low);
      assert EscapedChar(c) == "\\u" + HexText(high) + ("\\u" + HexText(low));
      assert EscapedChar(c)[1..] == "u" + HexText(high) + ("\\u" + HexText(low));
      hide EscapedChar;
      PairEscapeScans(high, low, tail);
    }
  }

  lemma FourDigits(n: nat)
    requires n < 0x10000
    ensures |HexText(n)| == 4
  {}

  lemma SimplyEscapedScans(c: char, tail: string)
    requires SimplyEscaped(c)
    ensures |EscapedChar(c)| == 2 && EscapedChar(c)[0] == '\\'
    ensures ScanEscape(EscapedChar(c)[1..] + tail) == Some((c, 1))
  {
    hide Hex4;
  }

  predicate SimplyEscaped(c: char) {
    c == '"' || c == '\\' || c == '\n' || c == '\r' || c == '\t' || c as int == 0x08 || c as int == 0x0C
  }

  /** A string that `json.dumps` wrote is scanned back to itself. */
  lemma {:induction false} DumpedStringScans(s: string, rest: string)
    ensures ScanString(EscapedText(s) + ("\"" + rest)) == Some((s, |EscapedText(s)| + 1))
  {
    if |s| == 0 {
      assert EscapedText(s) + ("\"" + rest) == "\"" + rest;
    } else {
      hide ScanString, EscapedText;
      DumpedStringScans(s[1..], rest);
      DumpedStringStep(s, "\"" + rest);
    }
  }

  lemma DumpedStringStep(s: string, end: string)
    requires |s| > 0 && ScanString(EscapedText(s[1..]) + end) == Some((s[1..], |EscapedText(s[1..])| + 1))
    ensures ScanString(EscapedText(s) + end) == Some((s, |EscapedText(s)| + 1))
  {
    hide ScanString, EscapedChar;
    var c, body := s[0], EscapedText(s[1..]);
    DumpedCharScans(c, body + end);
    Assoc(EscapedChar(c), body, end);
    assert s == [c] + s[1..];
  }

  /** So a string in JSON's own form is read as that string, whatever characters it has. */
  lemma DumpedStringRead(s: string)
    ensures Arguments(StringText(s)) == Some(Str(s))
  {
    DumpedStringScans(s, "");
    assert "\"" + "" == "\"";
    hide Arguments, EscapedText;
    assert "\"" + EscapedText(s) + "\"" == "\"" + (EscapedText(s) + "\"");
    Reads(Quoted(EscapedText(s)), StringText(s));
  }

  lemma QuotedReads(body: string, value: string)
    requires ScanString(body + "\"") == Some((value, |body| + 1))
    ensures Arguments("\"" + (body + "\"")) == Some(Str(value))
  {
    hide ScanString, Arguments;
    Reads(Quoted(body), "\"" + (body + "\""));
  }

  /** JSON may escape a slash, and write hexadecimal digits in upper case. */
  lemma OtherEscapesRead()
    ensures Arguments("\"" + ("\\/" + "\"")) == Some(Str("/"))
    ensures Arguments("\"" + ("\\u00E9" + "\"")) == Some(Str([0xE9 as char]))
  {
    hide ScanString, Arguments;
    SlashScans();
    UpperCaseScans();
    QuotedReads("\\/", "/");
    QuotedReads("\\u00E9", [0xE9 as char]);
  }

  lemma SlashScans()
    ensures ScanString("\\/" + "\"") == Some(("/", 3))
  {
    QuoteEnds();
    assert ScanEscape("/" + "\"") == Some(('/', 1));
    hide ScanString, ScanEscape;
    EscapeStep("/", '/', "\"");
    assert "\\" + ("/" + "\"") == "\\/" + "\"" && ['/'] + "" == "/";
  }

  lemma UpperCaseScans()
    ensures ScanString("\\u00E9" + "\"") == Some(([0xE9 as char], 7))
  {
    QuoteEnds();
    UpperCaseHex();
    hide ScanString, ScanEscape;
    EscapeStep("u00E9", 0xE9 as char, "\"");
    assert "\\" + ("u00E9" + "\"") == "\\u00E9" + "\"" && [0xE9 as char] + "" == [0xE9 as char];
  }

  lemma UpperCaseHex()
    ensures ScanEscape("u00E9" + "\"") == Some((0xE9 as char, 5))
  {
    var s := "u00E9" + "\"";
    assert s[1..] == "00E9" + "\"";
    assert Hex4("00E9" + "\"") == Some(0xE9);
    hide Hex4;
  }

  lemma QuoteEnds()
    ensures ScanString("\"") == Some(("", 1))
  {}

  /** A raw control character is refused. */
  lemma ControlRefused(c: char)
    requires c as int < 0x20
    ensures Arguments("\"" + [c] + "\"") == None
  {
    var text := "\"" + [c] + "\"";
    assert text[0] == '"' && text[1..] == [c] + "\"";
    assert Spaces(text) == "" && AfterSpaces(text) == text;
    assert ScanString(text[1..]) == None;
  }

  // ---------------------------------------------------------------- keys and whitespace

  /** The pattern of a bare key: a letter or underscore, then letters, digits, underscores, dots and dashes. */
  predicate MatchesKeyPattern(key: string) {
    && |key| > 0 && !('0' <= key[0] <= '9' || key[0] == '.' || key[0] == '-')
    && forall c | c in key :: 'a' <= c <= 'z' || 'A' <= c <= 'Z' || '0' <= c <= '9' || c == '_' || c == '.' || c == '-'
  }

  /** A key of that pattern may stand bare. */
  lemma BareKeyRead(key: string)
    requires MatchesKeyPattern(key)
    ensures Arguments("{" + (key + (":" + ("true" + "}")))) == Some(Obj([Member(key, Bool(true))]))
  {
    forall i | 0 <= i < |key| ensures IsKeyChar(key[i]) { assert key[i] in key; }
    assert key[0] in key;
    hide IsKeyStart, IsKeyChar;
    var item := Item("", BareName(key), "", "", Word(True), "", End);
    var tree := Container(true, "", item);
    NothingIsSpaces();
    assert Fields(End, [Member(key, Bool(true))]) == [Member(key, Bool(true))];
    assert Fields(item, []) == [Member(key, Bool(true))];
    assert GemmaSyntax.ItemsText(true, item) == key + (":" + "" + ("true" + ("" + "}")));
    hide Arguments;
    assert Text(tree) == "{" + (key + (":" + ("true" + "}")));
    Reads(tree, "{" + (key + (":" + ("true" + "}"))));
  }

  /** The characters Python counts as whitespace, by their code points. */
  lemma SpacesSpelledOut(c: char)
    ensures IsSpace(c) <==> c as int in {
      9, 10, 11, 12, 13, 28, 29, 30, 31, 32, 133, 160, 5760, 8192, 8193, 8194, 8195, 8196, 8197, 8198, 8199, 8200, 8201,
      8202, 8232, 8233, 8239, 8287, 12288}
  {}
}
