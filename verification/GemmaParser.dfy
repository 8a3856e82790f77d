/**
  The parser in the program's own form, over positions in the text, proved to accept exactly the
  texts that have a derivation and to return the value the derivation denotes. None stands for the
  `ValueError` the program raises.
  */
module GemmaParser {
  import opened Wrappers
  import opened Whitespace
  import opened JsonValues
  import opened GemmaLexical
  import opened GemmaSyntax

  datatype At<T> = At(value: T, position: nat)

  method SkipWhitespace(text: string, position: nat) returns (after: nat)
    requires position <= |text|
    ensures position <= after <= |text| && text[after..] == AfterSpaces(text[position..])
  {
    after := position;
    while after < |text| && IsSpace(text[after])
      invariant position <= after <= |text|
      invariant AfterSpaces(text[after..]) == AfterSpaces(text[position..])
    {
      assert text[after..][1..] == text[after + 1..];
      after := after + 1;
    }
  }

  lemma Drop(text: string, position: nat, k: nat)
    requires position + k <= |text|
    ensures text[position..][k..] == text[position + k..]
  {}

  method StartsWithAt(text: string, c: char, position: nat) returns (yes: bool)
    requires position <= |text|
    ensures yes <==> StartsWith(text[position..], c)
  {
    yes := position < |text| && text[position] == c;
  }

  /** A string between two delimiters. */
  method ReadDelimited(text: string, start: nat) returns (r: Option<At<string>>)
    requires start <= |text| && StartsDelimiter(text[start..])
    ensures var s := text[start..];
      var end := FindDelimiter(s[5..]);
      && (r.Some? <==> end.Some?)
      && (r.Some? ==>
            && FindDelimiter(s[5..5 + end.value]).None?
            && start < r.value.position <= |text|
            && r.value == At(s[5..5 + end.value], start + 10 + end.value)
            && text[r.value.position..] == s[10 + end.value..])
  {
    ghost var s := text[start..];
    var end := FindDelimiter(text[start + 5..]);
    Drop(text, start, 5);
    if end.None? { return None; }
    DelimitedSplits(s);
    Drop(text, start, 10 + end.value);
    hide FindDelimiter, StartsDelimiter;
    assert s[5..5 + end.value] == text[start + 5..start + 5 + end.value];
    r := Some(At(text[start + 5..start + 5 + end.value], start + 10 + end.value));
  }

  /** `json.JSONDecoder().raw_decode` at a quote. */
  method ReadQuoted(text: string, start: nat) returns (r: Option<At<string>>)
    requires start <= |text| && StartsWith(text[start..], '"')
    ensures var s := text[start..];
      var q := ScanString(s[1..]);
      && (r.Some? <==> q.Some?)
      && (r.Some? ==>
            && QuotedBody(s[1..q.value.1]) && QuotedValue(s[1..q.value.1]) == r.value.value
            && start < r.value.position <= |text|
            && text[r.value.position..] == s[1 + q.value.1..])
  {
    ghost var s := text[start..];
    var q := ScanString(text[start + 1..]);
    Drop(text, start, 1);
    if q.None? { return None; }
    QuotedSplits(s);
    Drop(text, start, 1 + q.value.1);
    r := Some(At(q.value.0, start + 1 + q.value.1));
  }

  /** `_parse_gemma_native_key`. */
  method ParseKey(text: string, position: nat) returns (r: Option<At<string>>)
    requires position <= |text|
    ensures var p := ParseName(true, AfterSpaces(text[position..]));
      && (r.Some? <==> p.Some?)
      && (r.Some? ==>
            && r.value.value == NameValue(p.value.value)
            && position <= r.value.position <= |text| && text[r.value.position..] == p.value.rest)
  {
    hide AfterSpaces, FindDelimiter, ScanString, QuotedBody, QuotedValue;
    var start := SkipWhitespace(text, position);
    if StartsDelimiter(text[start..]) {
      r := ReadDelimited(text, start);
      return;
    }
    var quoted := StartsWithAt(text, '"', start);
    if quoted {
      r := ReadQuoted(text, start);
      return;
    }
    var bare := ScanBareKey(text[start..]);
    if bare.None? { return None; }
    Drop(text, start, |bare.value|);
    return Some(At(bare.value, start + |bare.value|));
  }

  /** `_parse_gemma_native_value`. */
  method ParseValue(text: string, position: nat) returns (r: Option<At<Json>>)
    requires position <= |text|
    ensures var p := ParseTree(AfterSpaces(text[position..]));
      && (r.Some? <==> p.Some?)
      && (r.Some? ==>
            && ValidTree(p.value.value) && r.value.value == Meaning(p.value.value)
            && position < r.value.position <= |text| && text[r.value.position..] == p.value.rest)
    decreases |text| - position, 0
  {
    hide AfterSpaces, FindDelimiter, ScanString, QuotedBody, QuotedValue, ParseScalar, ParseContainer;
    var start := SkipWhitespace(text, position);
    if StartsDelimiter(text[start..]) {
      var d := ReadDelimited(text, start);
      if d.None? { return None; }
      return Some(At(Str(d.value.value), d.value.position));
    }
    var quoted := StartsWithAt(text, '"', start);
    if quoted {
      var q := ReadQuoted(text, start);
      if q.None? { return None; }
      return Some(At(Str(q.value.value), q.value.position));
    }
    var brace := StartsWithAt(text, '{', start);
    var bracket := StartsWithAt(text, '[', start);
    if brace || bracket {
      Drop(text, start, 1);
      r := ParseContainerAt(text, start + 1, brace);
      return;
    }
    r := ParseScalarAt(text, start);
  }

  method ParseScalarAt(text: string, start: nat) returns (r: Option<At<Json>>)
    requires start <= |text|
    ensures var p := ParseScalar(text[start..]);
      && (r.Some? <==> p.Some?)
      && (r.Some? ==>
            && r.value.value == Meaning(p.value.value)
            && start < r.value.position <= |text| && text[r.value.position..] == p.value.rest)
  {
    hide ScanLiteral, LiteralText;
    var rest := text[start..];
    var scalar := ParseScalar(rest);
    if scalar.None? { return None; }
    var used := |rest| - |scalar.value.rest|;
    Drop(text, start, used);
    assert rest == Text(scalar.value.value) + scalar.value.rest;
    assert rest[used..] == scalar.value.rest;
    match scalar.value.value {
      case Number(literal) => r := Some(At(LiteralValue(literal), start + used));
      case Word(word) =>
        var value := match word case True => Bool(true) case False => Bool(false) case Null => Json.Null;
        r := Some(At(value, start + used));
      case _ => assert false;
    }
  }

  /** The value of a container read so far, completed by its remaining items. */
  ghost function Completed(keyed: bool, items: Items, fields: Members, elements: seq<Json>): Json
    requires ValidItems(keyed, items)
  {
    if keyed then Obj(Fields(items, fields)) else Arr(Elements(items, elements))
  }

  /** `_parse_gemma_native_container`, after its opening bracket. */
  method ParseContainerAt(text: string, position: nat, keyed: bool) returns (r: Option<At<Json>>)
    requires position <= |text|
    ensures var p := ParseContainer(keyed, text[position..]);
      && (r.Some? <==> p.Some?)
      && (r.Some? ==>
            && ValidTree(p.value.value) && r.value.value == Meaning(p.value.value)
            && position < r.value.position <= |text| && text[r.value.position..] == p.value.rest)
    decreases |text| - position, 3
  {
    var at := SkipWhitespace(text, position);
    ghost var body := text[at..];
    var closed := StartsWithAt(text, Closing(keyed), at);
    if closed {
      Drop(text, at, 1);
      EndIsValid(keyed, Spaces(text[position..]));
      return Some(At(if keyed then Obj([]) else Arr([]), at + 1));
    }
    ghost var whole := ParseItems(keyed, Spaces(text[position..]), body);
    if whole.Some? { ItemsSound(keyed, Spaces(text[position..]), body); }
    r := ParseItemsAt(text, at, keyed, Spaces(text[position..]));
    if whole.Some? { ContainerSound(keyed, text[position..]); }
  }

  datatype Entry = Entry(key: string, value: Json, more: bool)

  /** What one turn of the loop has read of the items that start at `start`. */
  ghost predicate ReadsItem(keyed: bool, pre: string, items: Option<Parsed<Items>>, entry: Entry, rest: string) {
    var next := ParseItems(keyed, Spaces(rest), AfterSpaces(rest));
    && (entry.more ==> (items.Some? <==> next.Some?))
    && (!entry.more ==> items.Some?)
    && (items.Some? ==>
          && items.value.value.Item? && ValidItems(keyed, items.value.value)
          && (keyed ==> NameValue(items.value.value.name) == entry.key)
          && Meaning(items.value.value.value) == entry.value
          && (if entry.more then items.value.value.rest == next.value.value && items.value.rest == next.value.rest
              else items.value.value.rest == End && items.value.rest == rest))
  }

  method ParseItemAt(text: string, start: nat, keyed: bool, ghost pre: string) returns (r: Option<At<Entry>>)
    requires start <= |text| && StartsSolid(text[start..]) && AllSpaces(pre)
    ensures r.None? ==> ParseItems(keyed, pre, text[start..]).None?
    ensures r.Some? ==>
      && start < r.value.position <= |text|
      && ReadsItem(keyed, pre, ParseItems(keyed, pre, text[start..]), r.value.value, text[r.value.position..])
    decreases |text| - start, 1
  {
    hide ParseName, ParseColon, ParseTree, ParseItems, ReadsItem, Spaces, AfterSpaces, AllSpaces, IsSpace;
    hide ValidName, ValidTree, Meaning, NameValue;
    ghost var s := text[start..];
    ItemParts(keyed, pre, s);
    SolidStays(s);
    var key, at := "", start;
    if keyed {
      var name := ParseKey(text, start);
      if name.None? { return None; }
      key, at := name.value.value, name.value.position;
      ColonAt(text[at..]);
      var colonAt := SkipWhitespace(text, at);
      var colon := StartsWithAt(text, ':', colonAt);
      if !colon { return None; }
      Drop(text, colonAt, 1);
      at := colonAt + 1;
    } else {
      NoNameNoColon(s);
    }
    var value := ParseValue(text, at);
    if value.None? { return None; }
    var after := SkipWhitespace(text, value.value.position);
    var comma := StartsWithAt(text, ',', after);
    var closed := StartsWithAt(text, Closing(keyed), after);
    if !comma && !closed { return None; }
    Drop(text, after, 1);
    ItemRead(keyed, pre, s, Entry(key, value.value.value, comma));
    return Some(At(Entry(key, value.value.value, comma), after + 1));
  }

  /** The pieces `ParseItems` takes an item apart into, and when it fails. */
  lemma ItemParts(keyed: bool, pre: string, s: string)
    ensures ParseItems(keyed, pre, s).Some? ==>
      var name := ParseName(keyed, s);
      && name.Some?
      && var colon := ParseColon(keyed, name.value.rest);
         && colon.Some?
         && var value := ParseTree(colon.value.rest);
            && value.Some?
            && var tail := AfterSpaces(value.value.rest);
               StartsWith(tail, ',') || StartsWith(tail, Closing(keyed))
  {
    hide ParseName, ParseColon, ParseTree, Spaces, AfterSpaces;
  }

  lemma ItemRead(keyed: bool, pre: string, s: string, entry: Entry)
    requires AllSpaces(pre)
    requires ParseName(keyed, s).Some? && ParseColon(keyed, ParseName(keyed, s).value.rest).Some?
    requires ParseTree(ParseColon(keyed, ParseName(keyed, s).value.rest).value.rest).Some?
    requires var name := ParseName(keyed, s).value;
      var value := ParseTree(ParseColon(keyed, name.rest).value.rest).value;
      var tail := AfterSpaces(value.rest);
      && (entry.more <==> StartsWith(tail, ','))
      && (StartsWith(tail, ',') || StartsWith(tail, Closing(keyed)))
      && (keyed ==> NameValue(name.value) == entry.key)
      && ValidTree(value.value) && Meaning(value.value) == entry.value
    ensures var name := ParseName(keyed, s).value;
      var value := ParseTree(ParseColon(keyed, name.rest).value.rest).value;
      ReadsItem(keyed, pre, ParseItems(keyed, pre, s), entry, AfterSpaces(value.rest)[1..])
  {
    hide ParseName, ParseColon, ParseTree, Spaces, AfterSpaces, AllSpaces, NameValue, Meaning, ValidTree;
    if ParseItems(keyed, pre, s).Some? { ItemsSound(keyed, pre, s); }
  }

  lemma SolidStays(s: string)
    requires StartsSolid(s)
    ensures AfterSpaces(s) == s
  {}

  lemma NoNameNoColon(s: string)
    ensures ParseName(false, s) == Some(Parsed(NoName, s)) && ParseColon(false, s) == Some(Parsed(("", ""), s))
  {}

  lemma ColonAt(s: string)
    ensures ParseColon(true, s).Some? <==> StartsWith(AfterSpaces(s), ':')
    ensures StartsWith(AfterSpaces(s), ':') ==> ParseColon(true, s).value.rest == AfterSpaces(AfterSpaces(s)[1..])
  {}

  /** The `while True` loop, entered at the first item. */
  method ParseItemsAt(text: string, start: nat, keyed: bool, ghost lead: string) returns (r: Option<At<Json>>)
    requires start <= |text| && StartsSolid(text[start..]) && AllSpaces(lead)
    ensures var p := ParseItems(keyed, lead, text[start..]);
      && (r.Some? <==> p.Some?)
      && (r.Some? ==>
            && ValidItems(keyed, p.value.value) && r.value.value == Completed(keyed, p.value.value, [], [])
            && start < r.value.position <= |text| && text[r.value.position..] == p.value.rest)
    decreases |text| - start, 2
  {
    hide ParseItems, Spaces, AfterSpaces, AllSpaces, IsSpace, Meaning, NameValue, Completed, ValidItems, Put;
    r := None;
    var at := start;
    var fields: Members, elements: seq<Json> := [], [];
    ghost var whole, pre := ParseItems(keyed, lead, text[start..]), lead;
    if whole.Some? { ItemsSound(keyed, lead, text[start..]); }
    while true
      invariant start <= at <= |text| && StartsSolid(text[at..]) && AllSpaces(pre)
      invariant var now := ParseItems(keyed, pre, text[at..]);
        && (whole.Some? <==> now.Some?)
        && (whole.Some? ==>
              && ValidItems(keyed, whole.value.value) && ValidItems(keyed, now.value.value)
              && whole.value.rest == now.value.rest
              && Completed(keyed, whole.value.value, [], []) == Completed(keyed, now.value.value, fields, elements))
      decreases |text| - at
    {
      ghost var now := ParseItems(keyed, pre, text[at..]);
      var item := ParseItemAt(text, at, keyed, pre);
      if item.None? { return None; }
      var Entry(key, value, more) := item.value.value;
      var after := item.value.position;
      if now.Some? {
        Take(keyed, now.value.value, fields, elements);
      }
      if keyed { fields := Put(fields, key, value); } else { elements := elements + [value]; }
      if !more { return Some(At(if keyed then Obj(fields) else Arr(elements), after)); }
      pre := Spaces(text[after..]);
      SpacesSplit(text[after..]);
      at := SkipWhitespace(text, after);
    }
  }

  /** Taking one item moves it from the remaining items into what has been read. */
  lemma Take(keyed: bool, items: Items, fields: Members, elements: seq<Json>)
    requires items.Item? && ValidItems(keyed, items)
    ensures ValidItems(keyed, items.rest)
    ensures keyed ==>
      Completed(keyed, items, fields, elements)
      == Completed(keyed, items.rest, Put(fields, NameValue(items.name), Meaning(items.value)), elements)
    ensures !keyed ==>
      Completed(keyed, items, fields, elements)
      == Completed(keyed, items.rest, fields, elements + [Meaning(items.value)])
    ensures forall f, e :: Completed(keyed, End, f, e) == if keyed then Obj(f) else Arr(e)
  {}

  /** `_parse_gemma_native_arguments`: one value and nothing after it. */
  method ParseArguments(text: string) returns (r: Option<Json>)
    ensures r == Arguments(text)
  {
    var value := ParseValue(text, 0);
    assert text[0..] == text;
    if value.None? { return None; }
    var end := SkipWhitespace(text, value.value.position);
    if end != |text| { return None; }
    return Some(value.value.value);
  }

  function Arguments(text: string): Option<Json> {
    var p := ParseTree(AfterSpaces(text));
    if p.None? || AfterSpaces(p.value.rest) != "" then None
    else
      TreeSound(AfterSpaces(text));
      Some(Meaning(p.value.value))
  }
}
