/** The argument parser against its grammar: the accepted texts, their derivations and their values. */
module GemmaGrammar {
  import opened Wrappers
  import opened Whitespace
  import opened JsonValues
  import opened Numerals
  import opened GemmaLexical
  import opened GemmaSyntax
  import opened GemmaParser

  /** `text` is a derivation surrounded by whitespace. */
  ghost predicate Derives(tree: Tree, before: string, after: string, text: string) {
    ValidTree(tree) && AllSpaces(before) && AllSpaces(after) && text == before + (Text(tree) + after)
  }

  /** Completeness: however a value is laid out, parsing gives it back. */
  lemma LayoutDoesNotMatter(tree: Tree, before: string, after: string, text: string)
    requires Derives(tree, before, after, text)
    ensures Arguments(text) == Some(Meaning(tree))
  {
    SpacesEndNumbers(after);
    TextStarts(tree, after);
    SpacesThenSolid(before, Text(tree) + after);
    TreeParses(tree, after);
    OnlySpaces(after);
  }

  lemma SpacesEndNumbers(w: string)
    requires AllSpaces(w)
    ensures EndsNumber(w)
  {}

  lemma OnlySpaces(w: string)
    requires AllSpaces(w)
    ensures AfterSpaces(w) == ""
  {
    SpacesThenSolid(w, "");
    assert w + "" == w;
  }

  /** Soundness: an accepted text has a derivation that denotes the value returned. */
  lemma AcceptedTextsDerive(text: string) returns (tree: Tree, before: string, after: string)
    requires Arguments(text).Some?
    ensures Derives(tree, before, after, text) && Arguments(text) == Some(Meaning(tree))
  {
    var s := AfterSpaces(text);
    SpacesSplit(text);
    TreeSound(s);
    tree, before, after := ParseTree(s).value.value, Spaces(text), ParseTree(s).value.rest;
    SpacesSplit(after);
    assert Spaces(after) + "" == Spaces(after);
  }

  /** Exactly one derivation: text, whitespace and all. */
  lemma OneDerivation(text: string, a: Tree, before: string, after: string, b: Tree, before': string, after': string)
    requires Derives(a, before, after, text) && Derives(b, before', after', text)
    ensures a == b && before == before' && after == after'
  {
    SpacesEndNumbers(after);
    SpacesEndNumbers(after');
    TextStarts(a, after);
    TextStarts(b, after');
    SpacesThenSolid(before, Text(a) + after);
    SpacesThenSolid(before', Text(b) + after');
    TreeParses(a, after);
    TreeParses(b, after');
  }

  // ---------------------------------------------------------------- every value can be written

  function HexDigit(d: nat): char
    requires d < 16
  {
    if d < 10 then '0' + d as char else 'a' + (d - 10) as char
  }

  function EscapeChar(c: char): string {
    if c == '"' then "\\\""
    else if c == '\\' then "\\\\"
    else if c as int < 0x20 then "\\u00" + [HexDigit(c as int / 16), HexDigit(c as int % 16)]
    else [c]
  }

  function EscapeBody(s: string): string {
    if |s| == 0 then "" else EscapeChar(s[0]) + EscapeBody(s[1..])
  }

  lemma ControlEscapeScans(c: char, rest: string)
    requires c as int < 0x20
    ensures ScanEscape(EscapeChar(c)[1..] + rest) == Some((c, 5))
  {
    var high, low := HexDigit(c as int / 16), HexDigit(c as int % 16);
    var e := EscapeChar(c)[1..] + rest;
    assert EscapeChar(c)[1..] == ['u', '0', '0', high, low];
    assert e[0] == 'u' && e[1..][0] == '0' && e[1..][1] == '0' && e[1..][2] == high && e[1..][3] == low;
    assert HexValue(high) == Some(c as int / 16) && HexValue(low) == Some(c as int % 16);
    assert Hex4(e[1..]) == Some(c as int);
  }

  lemma {:induction false} EscapedBodyScans(s: string, rest: string)
    ensures ScanString(EscapeBody(s) + ("\"" + rest)) == Some((s, |EscapeBody(s)| + 1))
  {
    if |s| == 0 {
      assert EscapeBody(s) + ("\"" + rest) == "\"" + rest;
    } else {
      hide ScanString, EscapeBody;
      EscapedBodyScans(s[1..], rest);
      EscapedBodyStep(s, "\"" + rest);
    }
  }

  lemma EscapedBodyStep(s: string, end: string)
    requires |s| > 0 && ScanString(EscapeBody(s[1..]) + end) == Some((s[1..], |EscapeBody(s[1..])| + 1))
    ensures ScanString(EscapeBody(s) + end) == Some((s, |EscapeBody(s)| + 1))
  {
    hide ScanString, EscapeChar;
    var c, body := s[0], EscapeBody(s[1..]);
    EscapedCharScans(c, body + end);
    Assoc(EscapeChar(c), body, end);
    assert s == [c] + s[1..];
  }

  /** One escaped character in front of a scanned string. */
  lemma EscapedCharScans(c: char, tail: string)
    ensures ScanString(EscapeChar(c) + tail) == Prepend(c, |EscapeChar(c)|, ScanString(tail))
  {
    hide ScanEscape, ScanString;
    if c == '"' || c == '\\' {
      SimpleEscapeScans(c, tail);
      EscapeStep([c], c, tail);
      assert EscapeChar(c) + tail == "\\" + ([c] + tail);
    } else if c as int < 0x20 {
      ControlEscapeScans(c, tail);
      EscapeStep(EscapeChar(c)[1..], c, tail);
      assert EscapeChar(c) + tail == "\\" + (EscapeChar(c)[1..] + tail);
    } else {
      PlainStep(c, tail);
    }
  }

  lemma SimpleEscapeScans(c: char, rest: string)
    requires c == '"' || c == '\\'
    ensures ScanEscape([c] + rest) == Some((c, 1))
  {}

  lemma QuotedForm(s: string)
    ensures QuotedBody(EscapeBody(s)) && QuotedValue(EscapeBody(s)) == s
  {
    EscapedBodyScans(s, "");
    assert "\"" + "" == "\"";
  }

  ghost function TenTo(k: nat): (p: nat)
    ensures p > 0
  {
    if k == 0 then 1 else 10 * TenTo(k - 1)
  }

  /** `x` is the number `m` with the decimal point moved left by `left` places and right by `right`. */
  ghost predicate IsShifted(x: real, m: int, left: nat, right: nat) {
    x * TenTo(left) as real == m as real * TenTo(right) as real
  }

  /** The number of hundredths, thousandths or the like is whole. */
  ghost predicate IsDecimal(x: real) { exists m: int, k: nat :: IsShifted(x, m, k, 0) }

  /** Distinct keys everywhere, and floats that have a decimal form. */
  ghost predicate Printable(v: Json)
    decreases v
  {
    match v
    case Float(x) => IsDecimal(x)
    case Arr(items) => forall i | 0 <= i < |items| :: Printable(items[i])
    case Obj(members) => DistinctKeys(members) && forall i | 0 <= i < |members| :: Printable(members[i].value)
    case _ => true
  }

  lemma {:induction false} PowerIsTenTo(k: nat)
    ensures Power10(k) == TenTo(k) as real
  {
    if k > 0 { PowerIsTenTo(k - 1); }
  }

  ghost function Signed(negative: bool, digits: string): int
    requires AllDigits(digits)
  {
    var d: int := DigitsValue(digits);
    if negative then -d else d
  }

  lemma {:induction false} TenToSum(a: nat, b: nat)
    ensures TenTo(a + b) == TenTo(a) * TenTo(b)
  {
    if a > 0 { TenToSum(a - 1, b); }
  }

  lemma Product(a: nat, b: nat)
    ensures (a * b) as real == a as real * b as real
  {}

  lemma Quotients(d: real, p: real, q: real)
    requires p > 0.0 && q > 0.0
    ensures d / p * p == d && d / q * (p * q) == d * p
  {
    assert d / q * (p * q) == (d / q * q) * p;
  }

  lemma LeftOnce(m: int, f: nat)
    ensures IsShifted(PointLeft(m as real, f), m, f, 0)
  {
    PowerIsTenTo(f);
    assert TenTo(0) == 1;
    hide TenTo, Power10;
    Quotients(m as real, Power10(f), 1.0);
  }

  lemma LeftAgain(x: real, m: int, f: nat, e: nat)
    requires IsShifted(x, m, f, 0)
    ensures IsShifted(PointLeft(x, e), m, f + e, 0)
  {
    PowerIsTenTo(e);
    TenToSum(f, e);
    hide TenTo, Power10;
    Product(TenTo(f), TenTo(e));
    Quotients(x, TenTo(f) as real, TenTo(e) as real);
  }

  lemma ThenRight(x: real, m: int, f: nat, e: nat)
    requires IsShifted(x, m, f, 0)
    ensures IsShifted(PointRight(x, e), m, f, e)
  {
    PowerIsTenTo(e);
    assert TenTo(0) == 1;
    hide TenTo, Power10;
    Swapped(x, TenTo(e) as real, TenTo(f) as real);
  }

  lemma Swapped(x: real, a: real, b: real)
    ensures x * a * b == x * b * a
  {}

  /** All digits make one integer; the fraction and the exponent move its decimal point. */
  lemma FloatValue(n: Literal)
    requires IsLiteral(n) && (n.fraction.Some? || n.exponent.Some?)
    ensures var fraction := if n.fraction.Some? then n.fraction.value else "";
      var e := if n.exponent.Some? then DigitsValue(n.exponent.value.digits) else 0;
      var m := Signed(n.negative, n.whole + fraction);
      && LiteralValue(n).Float?
      && if n.exponent.Some? && n.exponent.value.sign == "-" then IsShifted(LiteralValue(n).x, m, |fraction| + e, 0)
         else IsShifted(LiteralValue(n).x, m, |fraction|, e)
  {
    var fraction := if n.fraction.Some? then n.fraction.value else "";
    var e := if n.exponent.Some? then DigitsValue(n.exponent.value.digits) else 0;
    var m := Signed(n.negative, n.whole + fraction);
    var sign := if n.negative then -1 else 1;
    assert sign * DigitsValue(n.whole + fraction) == m;
    hide PointLeft, PointRight, IsShifted, DigitsValue, Signed;
    LeftOnce(m, |fraction|);
    var mantissa := PointLeft(m as real, |fraction|);
    LeftAgain(mantissa, m, |fraction|, e);
    ThenRight(mantissa, m, |fraction|, e);
  }

  /** A decimal number written as digits and a negative exponent. */
  function DecimalLiteral(m: int, k: nat): Literal {
    Literal(m < 0, Numeral(if m < 0 then -m else m), None, Some(Exponent('e', "-", Numeral(k))))
  }

  lemma DecimalForm(x: real, k: nat, m: int)
    requires IsShifted(x, m, k, 0)
    ensures var n := DecimalLiteral(m, k); IsLiteral(n) && !LeadingZero(n) && LiteralValue(n) == Float(x)
  {
    hide IsShifted;
    var n := DecimalLiteral(m, k);
    NumeralDenotes(if m < 0 then -m else m);
    NumeralDenotes(k);
    assert n.whole + "" == n.whole;
    FloatValue(n);
    assert Signed(n.negative, n.whole) == m;
    hide TenTo, LiteralValue, Signed;
    SameNumber(x, LiteralValue(n).x, m, k);
  }

  lemma SameNumber(x: real, y: real, m: int, k: nat)
    requires IsShifted(x, m, k, 0) && IsShifted(y, m, k, 0)
    ensures x == y
  {
    hide TenTo;
    var p, q := TenTo(k) as real, m as real * TenTo(0) as real;
    assert x * p == q && y * p == q;
    SameQuotient(x, y, p, q);
  }

  lemma SameQuotient(x: real, y: real, p: real, q: real)
    requires x * p == q && y * p == q && p > 0.0
    ensures x == y
  {
    assert q / p == x && q / p == y;
  }

  lemma IntegerForm(i: int)
    ensures var n := Literal(i < 0, Numeral(if i < 0 then -i else i), None, None);
      IsLiteral(n) && !LeadingZero(n) && LiteralValue(n) == Int(i)
  {
    NumeralDenotes(if i < 0 then -i else i);
  }

  lemma {:induction false} EveryValueHasADerivation(v: Json) returns (tree: Tree)
    requires Printable(v)
    ensures ValidTree(tree) && Meaning(tree) == v
    decreases v, 1
  {
    match v
    case Null => tree := Word(Constant.Null);
    case Bool(b) => tree := Word(if b then True else False);
    case Int(i) =>
      IntegerForm(i);
      tree := Number(Literal(i < 0, Numeral(if i < 0 then -i else i), None, None));
    case Float(x) =>
      var m: int, k: nat :| IsShifted(x, m, k, 0);
      DecimalForm(x, k, m);
      tree := Number(DecimalLiteral(m, k));
    case Str(s) =>
      QuotedForm(s);
      tree := if FindDelimiter(s).None? then Delimited(s) else Quoted(EscapeBody(s));
    case Arr(items) =>
      var list := ItemsDerivation(items, 0);
      tree := Container(false, "", list);
      assert [] + items[0..] == items;
    case Obj(members) =>
      var list := MembersDerivation(v, 0, []);
      tree := Container(true, "", list);
      assert [] + members[0..] == members;
  }

  lemma {:induction false} ItemsDerivation(items: seq<Json>, from: nat) returns (list: Items)
    requires from <= |items| && forall i | 0 <= i < |items| :: Printable(items[i])
    ensures ValidItems(false, list)
    ensures forall acc :: Elements(list, acc) == acc + items[from..]
    decreases items, 0, |items| - from
  {
    if from == |items| { return End; }
    var first := EveryValueHasADerivation(items[from]);
    var rest := ItemsDerivation(items, from + 1);
    list := Item("", NoName, "", "", first, "", rest);
    forall acc ensures Elements(list, acc) == acc + items[from..] {
      assert Elements(list, acc) == Elements(rest, acc + [items[from]]);
      assert acc + [items[from]] + items[from + 1..] == acc + items[from..];
    }
  }

  lemma {:induction false} MembersDerivation(v: Json, from: nat, acc: Members) returns (list: Items)
    requires v.Obj? && from <= |v.members| && Printable(v) && acc == v.members[..from]
    ensures ValidItems(true, list) && Fields(list, acc) == v.members
    decreases v, 0, |v.members| - from
  {
    var members := v.members;
    if from == |members| { return End; }
    var m := members[from];
    var first := EveryValueHasADerivation(m.value);
    QuotedForm(m.key);
    assert m.key !in Keys(acc);
    PutNew(acc, m.key, m.value);
    assert members[..from + 1] == acc + [m];
    var rest := MembersDerivation(v, from + 1, members[..from + 1]);
    list := Item("", QuotedName(EscapeBody(m.key)), "", "", first, "", rest);
  }
}
