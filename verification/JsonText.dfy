/** `json.dumps(value, separators=(",", ":"))`: compact and ASCII only. */
module JsonText {
  import opened JsonValues
  import opened Numerals
  import opened GemmaGrammar

  function HexText(n: nat): string
    requires n < 0x10000
  {
    [HexDigit(n / 0x1000), HexDigit(n / 0x100 % 16), HexDigit(n / 16 % 16), HexDigit(n % 16)]
  }

  function EscapedChar(c: char): string {
    var n := c as int;
    if c == '"' then "\\\""
    else if c == '\\' then "\\\\"
    else if c == '\n' then "\\n"
    else if c == '\r' then "\\r"
    else if c == '\t' then "\\t"
    else if n == 0x08 then "\\b"
    else if n == 0x0C then "\\f"
    else if 0x20 <= n <= 0x7E then [c]
    else if n < 0x10000 then "\\u" + HexText(n)
    else "\\u" + HexText(0xD800 + (n - 0x10000) / 0x400) + ("\\u" + HexText(0xDC00 + (n - 0x10000) % 0x400))
  }

  function EscapedText(s: string): string {
    if |s| == 0 then "" else EscapedChar(s[0]) + EscapedText(s[1..])
  }

  function StringText(s: string): string { "\"" + EscapedText(s) + "\"" }

  /** `floats` is Python's `repr` of a float. */
  function Dumps(v: Json, floats: real -> string): string
    decreases v, 0
  {
    match v
    case Null => "null"
    case Bool(b) => if b then "true" else "false"
    case Int(i) => if i < 0 then "-" + Numeral(-i) else Numeral(i)
    case Float(x) => floats(x)
    case Str(s) => StringText(s)
    case Arr(items) => "[" + ItemsText(items, floats) + "]"
    case Obj(members) => "{" + MembersText(members, floats) + "}"
  }

  function ItemsText(items: seq<Json>, floats: real -> string): string
    decreases items, 1
  {
    if |items| == 0 then ""
    else Dumps(items[0], floats) + if |items| == 1 then "" else "," + ItemsText(items[1..], floats)
  }

  function MembersText(members: Members, floats: real -> string): string
    decreases members, 1
  {
    if |members| == 0 then ""
    else
      StringText(members[0].key) + (":" + Dumps(members[0].value, floats))
      + if |members| == 1 then "" else "," + MembersText(members[1..], floats)
  }

  // ---------------------------------------------------------------- no raw newline

  predicate Printing(s: string) { forall i | 0 <= i < |s| :: 0x20 <= s[i] as int <= 0x7E }

  lemma EscapedCharPrints(c: char)
    ensures Printing(EscapedChar(c))
  {
    assert forall d: nat :: d < 16 ==> 0x30 <= HexDigit(d) as int <= 0x66;
  }

  lemma {:induction false} EscapedTextPrints(s: string)
    ensures Printing(EscapedText(s))
  {
    if |s| > 0 {
      EscapedCharPrints(s[0]);
      EscapedTextPrints(s[1..]);
    }
  }

  /** Compact JSON is printable ASCII: whatever the strings inside hold, no newline is written. */
  lemma {:induction false} DumpsPrints(v: Json, floats: real -> string)
    requires forall x :: Printing(floats(x))
    ensures Printing(Dumps(v, floats))
    decreases v, 0
  {
    match v
    case Str(s) => EscapedTextPrints(s);
    case Arr(items) => ItemsPrint(items, floats);
    case Obj(members) => MembersPrint(members, floats);
    case _ =>
  }

  lemma {:induction false} ItemsPrint(items: seq<Json>, floats: real -> string)
    requires forall x :: Printing(floats(x))
    ensures Printing(ItemsText(items, floats))
    decreases items, 1
  {
    if |items| > 0 {
      DumpsPrints(items[0], floats);
      ItemsPrint(items[1..], floats);
    }
  }

  lemma {:induction false} MembersPrint(members: Members, floats: real -> string)
    requires forall x :: Printing(floats(x))
    ensures Printing(MembersText(members, floats))
    decreases members, 1
  {
    if |members| > 0 {
      EscapedTextPrints(members[0].key);
      DumpsPrints(members[0].value, floats);
      MembersPrint(members[1..], floats);
    }
  }
}
