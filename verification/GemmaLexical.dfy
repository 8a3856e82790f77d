/**
  The tokens of the Gemma call syntax: whitespace, the string delimiter, JSON quoted strings, bare
  keys and scalars. Scanners take the text from the current position on.
  */
module GemmaLexical {
  import opened Wrappers
  import opened JsonValues
  import opened Numerals
  import opened Whitespace

  // ---------------------------------------------------------------- whitespace

  lemma NothingIsSpaces()
    ensures AllSpaces("")
  {}

  lemma Assoc(a: string, b: string, c: string)
    ensures (a + b) + c == a + (b + c)
  {}

  /** Whitespace, a colon and whitespace, where the text has them. */
  lemma ColonSplits(s: string)
    requires StartsWith(AfterSpaces(s), ':')
    ensures var colon := AfterSpaces(s);
      s == Spaces(s) + (":" + Spaces(colon[1..])) + AfterSpaces(colon[1..])
  {
    SpacesSplit(s);
    SpacesSplit(AfterSpaces(s)[1..]);
    hide Spaces, AfterSpaces, AllSpaces;
    var colon := AfterSpaces(s);
    assert colon == ":" + colon[1..];
    Assoc(":", Spaces(colon[1..]), AfterSpaces(colon[1..]));
    Assoc(Spaces(s), ":" + Spaces(colon[1..]), AfterSpaces(colon[1..]));
  }

  lemma SpacesSplit(s: string)
    ensures s == Spaces(s) + AfterSpaces(s) && AllSpaces(Spaces(s)) && StartsSolid(AfterSpaces(s))
  {}

  predicate StartsWith(s: string, c: char) { |s| > 0 && s[0] == c }

  predicate StartsSolid(s: string) { |s| == 0 || !IsSpace(s[0]) }

  lemma {:induction false} SpacesThenSolid(w: string, s: string)
    requires AllSpaces(w) && StartsSolid(s)
    ensures Spaces(w + s) == w && AfterSpaces(w + s) == s
  {
    if |w| == 0 {
      assert w + s == s;
    } else {
      SpacesThenSolid(w[1..], s);
      assert (w + s)[1..] == w[1..] + s;
    }
  }

  // ---------------------------------------------------------------- the string delimiter

  const DELIMITER: string := "<|\"|>"

  predicate StartsDelimiter(s: string) { |s| >= 5 && s[..5] == DELIMITER }

  /** `s.find(DELIMITER)`: the leftmost occurrence. */
  function FindDelimiter(s: string): (r: Option<nat>)
    ensures r.Some? ==> r.value + 5 <= |s| && s[r.value..r.value + 5] == DELIMITER
  {
    if |s| < 5 then None
    else if s[..5] == DELIMITER then Some(0)
    else
      var r := FindDelimiter(s[1..]);
      if r.None? then None
      else
        assert s[1..][r.value..r.value + 5] == s[r.value + 1..r.value + 6];
        Some(r.value + 1)
  }

  /** The text before the first delimiter contains none. */
  lemma {:induction false} FoundIsFirst(s: string)
    requires FindDelimiter(s).Some?
    ensures FindDelimiter(s[..FindDelimiter(s).value]).None?
  {
    var k := FindDelimiter(s).value;
    if k > 0 {
      FoundIsFirst(s[1..]);
      var content := s[..k];
      if |content| >= 5 {
        assert content[..5] == s[..5];
        assert content[1..] == s[1..][..k - 1];
      }
    }
  }

  /**
    A delimiter-free string closed by the delimiter is found whole: `<` occurs only at the start of
    the delimiter, so no occurrence can straddle the two.
    */
  lemma {:induction false} ClosedAtItsEnd(content: string, rest: string)
    requires FindDelimiter(content).None?
    ensures FindDelimiter(content + DELIMITER + rest) == Some(|content|)
  {
    var s := content + DELIMITER + rest;
    if |content| == 0 {
      assert s[..5] == DELIMITER;
    } else {
      assert s[..5] != DELIMITER by {
        if |content| >= 5 { assert content[..5] == s[..5]; } else { assert s[..5][|content|] == '<'; }
      }
      ClosedAtItsEnd(content[1..], rest);
      assert s[1..] == content[1..] + DELIMITER + rest;
    }
  }

  // ---------------------------------------------------------------- JSON quoted strings

  function HexValue(c: char): Option<nat> {
    if '0' <= c <= '9' then Some(c as int - '0' as int)
    else if 'a' <= c <= 'f' then Some(c as int - 'a' as int + 10)
    else if 'A' <= c <= 'F' then Some(c as int - 'A' as int + 10)
    else None
  }

  function Hex4(s: string): (r: Option<nat>)
    ensures r.Some? ==> |s| >= 4 && r.value < 0x10000
  {
    if |s| < 4 then None
    else
      var a, b, c, d := HexValue(s[0]), HexValue(s[1]), HexValue(s[2]), HexValue(s[3]);
      if a.None? || b.None? || c.None? || d.None? then None
      else Some(((a.value * 16 + b.value) * 16 + c.value) * 16 + d.value)
  }

  function SimpleEscape(c: char): Option<char> {
    if c == '"' || c == '\\' || c == '/' then Some(c)
    else if c == 'b' then Some(0x08 as char)
    else if c == 'f' then Some(0x0C as char)
    else if c == 'n' then Some('\n')
    else if c == 'r' then Some('\r')
    else if c == 't' then Some('\t')
    else None
  }

  /** What follows a backslash: the character it stands for and the number of characters read. */
  function ScanEscape(s: string): (r: Option<(char, nat)>)
    ensures r.Some? ==> 0 < r.value.1 <= |s|
  {
    if |s| == 0 then None
    else if s[0] != 'u' then
      var c := SimpleEscape(s[0]);
      if c.None? then None else Some((c.value, 1))
    else
      var high := Hex4(s[1..]);
      if high.None? then None
      else if high.value < 0xD800 || 0xE000 <= high.value then Some((high.value as char, 5))
      else if high.value >= 0xDC00 || |s| < 11 || s[5] != '\\' || s[6] != 'u' then None
      else
        var low := Hex4(s[7..]);
        if low.None? || low.value < 0xDC00 || 0xE000 <= low.value then None
        else Some(((0x10000 + (high.value - 0xD800) * 0x400 + (low.value - 0xDC00)) as char, 11))
  }

  /** A strict JSON string after its opening quote, with the number of characters read. */
  function ScanString(s: string): (r: Option<(string, nat)>)
    ensures r.Some? ==> 0 < r.value.1 <= |s| && s[r.value.1 - 1] == '"'
  {
    if |s| == 0 then None
    else if s[0] == '"' then Some(("", 1))
    else if s[0] == '\\' then
      var e := ScanEscape(s[1..]);
      if e.None? then None
      else
        var r := ScanString(s[1 + e.value.1..]);
        if r.None? then None else Some(([e.value.0] + r.value.0, 1 + e.value.1 + r.value.1))
    else if s[0] as int < 0x20 then None
    else
      var r := ScanString(s[1..]);
      if r.None? then None else Some(([s[0]] + r.value.0, 1 + r.value.1))
  }

  lemma ScanEscapeLocal(s: string, t: string)
    requires ScanEscape(s).Some?
    ensures ScanEscape(s[..ScanEscape(s).value.1] + t) == ScanEscape(s)
  {
    var n := ScanEscape(s).value.1;
    var u := s[..n] + t;
    assert forall i | 0 <= i < n :: u[i] == s[i];
    if s[0] == 'u' {
      assert forall i | 0 <= i < n - 1 :: u[1..][i] == s[1..][i];
      assert Hex4(u[1..]) == Hex4(s[1..]);
      if n == 11 {
        assert forall i | 0 <= i < 4 :: u[7..][i] == s[7..][i];
        assert Hex4(u[7..]) == Hex4(s[7..]);
      }
    }
  }

  /** One more character in front of a scanned string. */
  function Prepend(c: char, n: nat, r: Option<(string, nat)>): Option<(string, nat)> {
    if r.None? then None else Some(([c] + r.value.0, n + r.value.1))
  }

  lemma PlainStep(c: char, rest: string)
    requires c != '"' && c != '\\' && c as int >= 0x20
    ensures ScanString([c] + rest) == Prepend(c, 1, ScanString(rest))
  {
    assert ([c] + rest)[1..] == rest;
  }

  lemma EscapeStep(e: string, c: char, rest: string)
    requires ScanEscape(e + rest) == Some((c, |e|))
    ensures ScanString("\\" + (e + rest)) == Prepend(c, 1 + |e|, ScanString(rest))
  {
    hide ScanEscape;
    var s := "\\" + (e + rest);
    assert s[1..] == e + rest;
    assert s[1 + |e|..] == rest;
  }

  /** The scanner looks no further than the closing quote. */
  lemma {:induction false} ScanStringLocal(s: string, t: string)
    requires ScanString(s).Some?
    ensures ScanString(s[..ScanString(s).value.1] + t) == ScanString(s)
    decreases |s|
  {
    hide ScanEscape;
    if s[0] == '"' {
      assert (s[..1] + t)[0] == '"';
    } else if s[0] == '\\' {
      var (c, k) := ScanEscape(s[1..]).value;
      var rest := s[1 + k..];
      ScanStringLocal(rest, t);
      assert s[1..] == s[1..][..k] + rest && s == "\\" + (s[1..][..k] + rest);
      ScanEscapedLocal(s[1..][..k], c, rest, t);
    } else {
      ScanStringLocal(s[1..], t);
      var n := ScanString(s[1..]).value.1;
      assert s[..1 + n] + t == [s[0]] + (s[1..][..n] + t);
      PlainStep(s[0], s[1..][..n] + t);
    }
  }

  lemma ScanEscapedLocal(e: string, c: char, rest: string, t: string)
    requires ScanEscape(e + rest) == Some((c, |e|)) && ScanString(rest).Some?
    requires ScanString(rest[..ScanString(rest).value.1] + t) == ScanString(rest)
    ensures var s := "\\" + (e + rest);
      ScanString(s).Some? && ScanString(s[..ScanString(s).value.1] + t) == ScanString(s)
  {
    hide ScanEscape, ScanString;
    var s := "\\" + (e + rest);
    var n := ScanString(rest).value.1;
    EscapeStep(e, c, rest);
    ScanEscapeLocal(e + rest, rest[..n] + t);
    assert (e + rest)[..|e|] == e;
    EscapeStep(e, c, rest[..n] + t);
    assert s[..1 + |e| + n] + t == "\\" + (e + (rest[..n] + t));
  }

  // ---------------------------------------------------------------- bare keys

  predicate IsKeyStart(c: char) { 'A' <= c <= 'Z' || 'a' <= c <= 'z' || c == '_' }

  predicate IsKeyChar(c: char) { IsKeyStart(c) || IsDigit(c) || c == '.' || c == '-' }

  predicate IsBareKey(s: string) { |s| > 0 && IsKeyStart(s[0]) && forall i | 0 <= i < |s| :: IsKeyChar(s[i]) }

  /** Longest run of characters that satisfy `p`, as a greedy `*` takes it. */
  function Run(p: char -> bool, s: string): (r: string)
    ensures r <= s && forall i | 0 <= i < |r| :: p(r[i])
    ensures |r| < |s| ==> !p(s[|r|])
  {
    if |s| == 0 || !p(s[0]) then "" else [s[0]] + Run(p, s[1..])
  }

  lemma {:induction false} RunThenOther(p: char -> bool, w: string, s: string)
    requires forall i | 0 <= i < |w| :: p(w[i])
    requires |s| == 0 || !p(s[0])
    ensures Run(p, w + s) == w && (w + s)[|w|..] == s
  {
    if |w| == 0 {
      assert w + s == s;
    } else {
      RunThenOther(p, w[1..], s);
      assert (w + s)[1..] == w[1..] + s;
    }
  }

  function ScanBareKey(s: string): (r: Option<string>)
    ensures r.Some? ==> IsBareKey(r.value) && r.value <= s
  {
    if |s| > 0 && IsKeyStart(s[0]) then Some(Run(IsKeyChar, s)) else None
  }

  // ---------------------------------------------------------------- scalars

  datatype Exponent = Exponent(mark: char, sign: string, digits: string)

  /** `-?\d+(?:\.\d+)?(?:[eE][+-]?\d+)?` */
  datatype Literal = Literal(negative: bool, whole: string, fraction: Option<string>, exponent: Option<Exponent>)

  predicate IsDigits(s: string) { |s| > 0 && AllDigits(s) }

  predicate IsLiteral(n: Literal) {
    && IsDigits(n.whole)
    && (n.fraction.Some? ==> IsDigits(n.fraction.value))
    && (n.exponent.Some? ==>
          && (n.exponent.value.mark == 'e' || n.exponent.value.mark == 'E')
          && (n.exponent.value.sign == "" || n.exponent.value.sign == "+" || n.exponent.value.sign == "-")
          && IsDigits(n.exponent.value.digits))
  }

  /** JSON takes no leading zeros, so `json.loads` refuses them where the pattern does not. */
  predicate LeadingZero(n: Literal) { |n.whole| > 1 && n.whole[0] == '0' }

  function SignText(n: Literal): string { if n.negative then "-" else "" }

  function FractionText(n: Literal): string { if n.fraction.Some? then "." + n.fraction.value else "" }

  function ExponentText(n: Literal): string {
    if n.exponent.Some? then [n.exponent.value.mark] + n.exponent.value.sign + n.exponent.value.digits else ""
  }

  function LiteralText(n: Literal): string {
    SignText(n) + UnsignedText(n)
  }

  function UnsignedText(n: Literal): string { n.whole + (FractionText(n) + ExponentText(n)) }

  /** `json.loads` of a number: an int without fraction and exponent, else a float. */
  function LiteralValue(n: Literal): Json
    requires IsLiteral(n)
  {
    var sign := if n.negative then -1 else 1;
    if n.fraction.None? && n.exponent.None? then Int(sign * DigitsValue(n.whole))
    else
      var fraction := if n.fraction.Some? then n.fraction.value else "";
      var mantissa := PointLeft((sign * DigitsValue(n.whole + fraction)) as real, |fraction|);
      if n.exponent.None? then Float(mantissa)
      else
        var e := DigitsValue(n.exponent.value.digits);
        if n.exponent.value.sign == "-" then Float(PointLeft(mantissa, e)) else Float(PointRight(mantissa, e))
  }

  function Power10(n: nat): (r: real)
    ensures r > 0.0
  {
    if n == 0 then 1.0 else 10.0 * Power10(n - 1)
  }

  /** The decimal point moved by `k` places. */
  function PointLeft(x: real, k: nat): real { x / Power10(k) }

  function PointRight(x: real, k: nat): real { x * Power10(k) }

  function ScanFraction(s: string): (r: (Option<string>, string))
    ensures r.0.Some? ==> IsDigits(r.0.value)
    ensures s == (if r.0.Some? then "." + r.0.value else "") + r.1
  {
    if StartsWith(s, '.') && |Run(IsDigit, s[1..])| > 0 then
      var digits := Run(IsDigit, s[1..]);
      (Some(digits), s[1 + |digits|..])
    else (None, s)
  }

  function ScanSign(s: string): (r: string)
    ensures r <= s && (r == "" || r == "+" || r == "-")
  {
    if StartsWith(s, '+') then "+" else if StartsWith(s, '-') then "-" else ""
  }

  lemma ThreeParts(s: string, b: string, c: string)
    requires |s| > 0 && b <= s[1..] && c <= s[1 + |b|..]
    ensures s == [s[0]] + b + c + s[1 + |b| + |c|..]
  {
    assert s[1..] == b + s[1 + |b|..] && s[1 + |b|..] == c + s[1 + |b| + |c|..];
  }

  function ScanExponent(s: string): (r: (Option<Exponent>, string))
    ensures r.0.Some? ==>
      && (r.0.value.mark == 'e' || r.0.value.mark == 'E')
      && (r.0.value.sign == "" || r.0.value.sign == "+" || r.0.value.sign == "-")
      && IsDigits(r.0.value.digits)
    ensures s == (if r.0.Some? then [r.0.value.mark] + r.0.value.sign + r.0.value.digits else "") + r.1
  {
    if StartsWith(s, 'e') || StartsWith(s, 'E') then
      var sign := ScanSign(s[1..]);
      var digits := Run(IsDigit, s[1 + |sign|..]);
      ThreeParts(s, sign, digits);
      if |digits| > 0 then (Some(Exponent(s[0], sign, digits)), s[1 + |sign| + |digits|..]) else (None, s)
    else (None, s)
  }

  function ScanLiteral(s: string): (r: Option<(Literal, string)>)
    ensures r.Some? ==> IsLiteral(r.value.0) && s == LiteralText(r.value.0) + r.value.1
  {
    var negative := StartsWith(s, '-');
    var r := ScanUnsigned(negative, if negative then s[1..] else s);
    if r.Some? then
      SignSplits(s, r.value.0, r.value.1);
      r
    else None
  }

  function ScanUnsigned(negative: bool, s: string): (r: Option<(Literal, string)>)
    ensures r.Some? ==>
      IsLiteral(r.value.0) && r.value.0.negative == negative && s == UnsignedText(r.value.0) + r.value.1
  {
    var whole := Run(IsDigit, s);
    if |whole| == 0 then None
    else
      var (fraction, afterFraction) := ScanFraction(s[|whole|..]);
      var (exponent, rest) := ScanExponent(afterFraction);
      var n := Literal(negative, whole, fraction, exponent);
      LiteralSplits(s, n, afterFraction, rest);
      Some((n, rest))
  }

  lemma SignJoins(n: Literal, unsigned: string, rest: string)
    requires unsigned == UnsignedText(n) + rest
    ensures SignText(n) + unsigned == LiteralText(n) + rest
  {
    hide SignText, UnsignedText;
    Assoc(SignText(n), UnsignedText(n), rest);
  }

  lemma SignSplits(s: string, n: Literal, rest: string)
    requires n.negative == StartsWith(s, '-')
    requires (if n.negative then s[1..] else s) == UnsignedText(n) + rest
    ensures s == LiteralText(n) + rest
  {
    hide UnsignedText;
    SignJoins(n, if n.negative then s[1..] else s, rest);
    if n.negative { assert s == "-" + s[1..]; } else { assert s == "" + s; }
  }

  lemma LiteralSplits(s: string, n: Literal, afterFraction: string, rest: string)
    requires n.whole <= s && s[|n.whole|..] == FractionText(n) + afterFraction
    requires afterFraction == ExponentText(n) + rest
    ensures s == UnsignedText(n) + rest
  {
    hide FractionText, ExponentText;
    assert s == n.whole + s[|n.whole|..];
    Assoc(FractionText(n), ExponentText(n), rest);
    Assoc(n.whole, FractionText(n) + ExponentText(n), rest);
  }

  /** Nothing after the literal that could lengthen it. */
  predicate EndsNumber(s: string) {
    |s| == 0 || !(IsDigit(s[0]) || s[0] == '.' || s[0] == 'e' || s[0] == 'E')
  }

  lemma LiteralScans(n: Literal, rest: string)
    requires IsLiteral(n) && EndsNumber(rest)
    ensures ScanLiteral(LiteralText(n) + rest) == Some((n, rest))
  {
    UnsignedScans(n, rest);
    var unsigned := UnsignedText(n) + rest;
    assert IsDigit(unsigned[0]) by { assert unsigned[0] == n.whole[0]; }
    hide ScanUnsigned, UnsignedText, IsLiteral;
    SignJoins(n, unsigned, rest);
    assert (LiteralText(n) + rest)[|SignText(n)|..] == unsigned;
  }

  lemma UnsignedScans(n: Literal, rest: string)
    requires IsLiteral(n) && EndsNumber(rest)
    ensures ScanUnsigned(n.negative, UnsignedText(n) + rest) == Some((n, rest))
  {
    var tail := ExponentText(n) + rest;
    var middle := FractionText(n) + tail;
    ExponentScans(n, rest);
    FractionScans(n, tail);
    RunThenOther(IsDigit, n.whole, middle);
    hide ScanExponent, ScanFraction, Run, ExponentText, FractionText, AllDigits, EndsNumber;
    Assoc(FractionText(n), ExponentText(n), rest);
    Assoc(n.whole, FractionText(n) + ExponentText(n), rest);
  }

  lemma ExponentScans(n: Literal, rest: string)
    requires IsLiteral(n) && EndsNumber(rest)
    ensures ScanExponent(ExponentText(n) + rest) == (n.exponent, rest)
    ensures var s := ExponentText(n) + rest; |s| == 0 || !(IsDigit(s[0]) || s[0] == '.')
  {
    if n.exponent.Some? {
      var e := n.exponent.value;
      ExponentPartsScan(e.mark, e.sign, e.digits, rest);
      assert ExponentText(n) + rest == [e.mark] + (e.sign + (e.digits + rest));
    } else {
      assert ExponentText(n) + rest == rest;
    }
  }

  lemma ExponentPartsScan(mark: char, sign: string, digits: string, rest: string)
    requires (mark == 'e' || mark == 'E') && (sign == "" || sign == "+" || sign == "-")
    requires IsDigits(digits) && EndsNumber(rest)
    ensures ScanExponent([mark] + (sign + (digits + rest))) == (Some(Exponent(mark, sign, digits)), rest)
  {
    hide Run, ScanSign;
    var s := [mark] + (sign + (digits + rest));
    RunThenOther(IsDigit, digits, rest);
    assert s[1..] == sign + (digits + rest);
    SignScans(sign, digits + rest);
    assert s[1 + |sign|..] == digits + rest;
    assert s[1 + |sign| + |digits|..] == rest;
  }

  lemma SignScans(sign: string, rest: string)
    requires (sign == "" || sign == "+" || sign == "-") && |rest| > 0 && IsDigit(rest[0])
    ensures ScanSign(sign + rest) == sign
  {
    assert (sign + rest)[0] == if sign == "" then rest[0] else sign[0];
  }

  lemma FractionScans(n: Literal, tail: string)
    requires IsLiteral(n) && (|tail| == 0 || !(IsDigit(tail[0]) || tail[0] == '.'))
    ensures ScanFraction(FractionText(n) + tail) == (n.fraction, tail)
    ensures var s := FractionText(n) + tail; |s| == 0 || !IsDigit(s[0])
  {
    if n.fraction.Some? {
      var s := FractionText(n) + tail;
      assert s[1..] == n.fraction.value + tail;
      RunThenOther(IsDigit, n.fraction.value, tail);
    } else {
      assert FractionText(n) + tail == tail;
    }
  }
}
