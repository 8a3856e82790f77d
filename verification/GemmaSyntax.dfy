/**
  The grammar of Gemma call arguments as derivation trees: the text a tree spells, the JSON value it
  denotes, and a parser from texts to trees that is proved sound, complete and unambiguous.
  */
module GemmaSyntax {
  import opened Wrappers
  import opened Whitespace
  import opened JsonValues
  import opened Numerals
  import opened GemmaLexical

  datatype Constant = True | False | Null

  datatype Name = NoName | BareName(name: string) | DelimitedName(content: string) | QuotedName(body: string)

  datatype Tree =
    | Delimited(content: string)
    | Quoted(body: string)
    | Number(literal: Literal)
    | Word(word: Constant)
    | Container(keyed: bool, lead: string, items: Items)

  /** The items of a container, each with the whitespace around its parts. */
  datatype Items =
    | End
    | Item(pre: string, name: Name, beforeColon: string, afterColon: string, value: Tree, post: string, rest: Items)

  // ---------------------------------------------------------------- well-formed trees

  predicate QuotedBody(body: string) {
    var r := ScanString(body + "\"");
    r.Some? && r.value.1 == |body| + 1
  }

  predicate ValidName(keyed: bool, name: Name) {
    match name
    case NoName => !keyed
    case BareName(n) => keyed && IsBareKey(n)
    case DelimitedName(content) => keyed && FindDelimiter(content).None?
    case QuotedName(body) => keyed && QuotedBody(body)
  }

  predicate ValidTree(tree: Tree)
    decreases tree
  {
    match tree
    case Delimited(content) => FindDelimiter(content).None?
    case Quoted(body) => QuotedBody(body)
    case Number(literal) => IsLiteral(literal) && !LeadingZero(literal)
    case Word(_) => true
    case Container(keyed, lead, items) => AllSpaces(lead) && ValidItems(keyed, items) && (items.Item? ==> lead == "")
  }

  predicate ValidItems(keyed: bool, items: Items)
    decreases items
  {
    match items
    case End => true
    case Item(pre, name, beforeColon, afterColon, value, post, rest) =>
      && AllSpaces(pre) && AllSpaces(beforeColon) && AllSpaces(afterColon) && AllSpaces(post)
      && ValidName(keyed, name)
      && (!keyed ==> beforeColon == "" && afterColon == "")
      && ValidTree(value)
      && ValidItems(keyed, rest)
  }

  // ---------------------------------------------------------------- text

  function ConstantText(word: Constant): string {
    match word
    case True => "true"
    case False => "false"
    case Null => "null"
  }

  function NameText(name: Name): string {
    match name
    case NoName => ""
    case BareName(n) => n
    case DelimitedName(content) => DELIMITER + (content + DELIMITER)
    case QuotedName(body) => "\"" + (body + "\"")
  }

  function Opening(keyed: bool): char { if keyed then '{' else '[' }

  function Closing(keyed: bool): char { if keyed then '}' else ']' }

  function Text(tree: Tree): string
    decreases tree, 0
  {
    match tree
    case Delimited(content) => DELIMITER + (content + DELIMITER)
    case Quoted(body) => "\"" + (body + "\"")
    case Number(literal) => LiteralText(literal)
    case Word(word) => ConstantText(word)
    case Container(keyed, lead, items) =>
      [Opening(keyed)] + (lead + (if items.End? then [Closing(keyed)] else items.pre + ItemsText(keyed, items)))
  }

  /** The items from the first name on, with the closing bracket. */
  function ItemsText(keyed: bool, items: Items): string
    requires items.Item?
    decreases items, 1
  {
    NameText(items.name) + (ColonText(keyed, items) + (Text(items.value) + (items.post + TailText(keyed, items.rest))))
  }

  function ColonText(keyed: bool, items: Items): string
    requires items.Item?
  {
    if keyed then items.beforeColon + (":" + items.afterColon) else ""
  }

  function TailText(keyed: bool, rest: Items): string
    decreases rest, 2
  {
    if rest.End? then [Closing(keyed)] else "," + (rest.pre + ItemsText(keyed, rest))
  }

  // ---------------------------------------------------------------- meaning

  function QuotedValue(body: string): string
    requires QuotedBody(body)
  {
    ScanString(body + "\"").value.0
  }

  function NameValue(name: Name): string
    requires ValidName(true, name)
  {
    match name
    case BareName(n) => n
    case DelimitedName(content) => content
    case QuotedName(body) => QuotedValue(body)
  }

  function Meaning(tree: Tree): Json
    requires ValidTree(tree)
  {
    match tree
    case Delimited(content) => Str(content)
    case Quoted(body) => Str(QuotedValue(body))
    case Number(literal) => LiteralValue(literal)
    case Word(word) => (match word case True => Bool(true) case False => Bool(false) case Null => Json.Null)
    case Container(keyed, _, items) => if keyed then Obj(Fields(items, [])) else Arr(Elements(items, []))
  }

  /** Each item assigned in turn to a dictionary. */
  function Fields(items: Items, acc: Members): Members
    requires ValidItems(true, items)
  {
    if items.End? then acc
    else Fields(items.rest, Put(acc, NameValue(items.name), Meaning(items.value)))
  }

  function Elements(items: Items, acc: seq<Json>): seq<Json>
    requires ValidItems(false, items)
  {
    if items.End? then acc else Elements(items.rest, acc + [Meaning(items.value)])
  }

  // ---------------------------------------------------------------- parsing

  datatype Parsed<T> = Parsed(value: T, rest: string)

  function ParseName(keyed: bool, s: string): (r: Option<Parsed<Name>>)
    ensures r.Some? ==> ValidName(keyed, r.value.value) && s == NameText(r.value.value) + r.value.rest
  {
    if !keyed then Some(Parsed(NoName, s))
    else if StartsDelimiter(s) then
      var end := FindDelimiter(s[5..]);
      if end.None? then None
      else
        DelimitedSplits(s);
        Some(Parsed(DelimitedName(s[5..5 + end.value]), s[10 + end.value..]))
    else if StartsWith(s, '"') then
      var r := ScanString(s[1..]);
      if r.None? then None
      else
        QuotedSplits(s);
        Some(Parsed(QuotedName(s[1..r.value.1]), s[1 + r.value.1..]))
    else
      var bare := ScanBareKey(s);
      if bare.None? then None else Some(Parsed(BareName(bare.value), s[|bare.value|..]))
  }

  lemma DelimitedSplits(s: string)
    requires StartsDelimiter(s) && FindDelimiter(s[5..]).Some?
    ensures var k := FindDelimiter(s[5..]).value;
      10 + k <= |s| && FindDelimiter(s[5..5 + k]).None?
      && s == DELIMITER + (s[5..5 + k] + DELIMITER) + s[10 + k..]
  {
    var k := FindDelimiter(s[5..]).value;
    FoundIsFirst(s[5..]);
    assert s[5..][..k] == s[5..5 + k];
    assert s[5..][k..k + 5] == s[5 + k..10 + k];
    assert s == s[..5] + (s[5..5 + k] + s[5 + k..10 + k]) + s[10 + k..];
  }

  lemma QuotedSplits(s: string)
    requires StartsWith(s, '"') && ScanString(s[1..]).Some?
    ensures var (v, n) := ScanString(s[1..]).value;
      QuotedBody(s[1..n]) && QuotedValue(s[1..n]) == v && s == "\"" + (s[1..n] + "\"") + s[1 + n..]
  {
    var (v, n) := ScanString(s[1..]).value;
    ScanStringLocal(s[1..], "");
    assert s[1..][..n] + "" == s[1..n] + "\"";
  }

  function ParseScalar(s: string): (r: Option<Parsed<Tree>>)
    ensures r.Some? ==> ValidTree(r.value.value) && s == Text(r.value.value) + r.value.rest && |r.value.rest| < |s|
  {
    var n := ScanLiteral(s);
    if n.Some? then
      if LeadingZero(n.value.0) then None else Some(Parsed(Number(n.value.0), n.value.1))
    else if |s| >= 4 && s[..4] == "true" then Some(Parsed(Word(True), s[4..]))
    else if |s| >= 5 && s[..5] == "false" then Some(Parsed(Word(False), s[5..]))
    else if |s| >= 4 && s[..4] == "null" then Some(Parsed(Word(Constant.Null), s[4..]))
    else None
  }

  /** One value, from its first character on. */
  function ParseTree(s: string): (r: Option<Parsed<Tree>>)
    ensures r.Some? ==> |r.value.rest| < |s|
    decreases |s|, 0
  {
    if StartsDelimiter(s) then
      var end := FindDelimiter(s[5..]);
      if end.None? then None else Some(Parsed(Delimited(s[5..5 + end.value]), s[10 + end.value..]))
    else if StartsWith(s, '"') then
      var r := ScanString(s[1..]);
      if r.None? then None else Some(Parsed(Quoted(s[1..r.value.1]), s[1 + r.value.1..]))
    else if StartsWith(s, '{') then ParseContainer(true, s[1..])
    else if StartsWith(s, '[') then ParseContainer(false, s[1..])
    else ParseScalar(s)
  }

  /** A container after its opening bracket. */
  function ParseContainer(keyed: bool, s: string): (r: Option<Parsed<Tree>>)
    ensures r.Some? ==> |r.value.rest| < |s|
    decreases |s|, 2
  {
    var lead, body := Spaces(s), AfterSpaces(s);
    if StartsWith(body, Closing(keyed)) then Some(Parsed(Container(keyed, lead, End), body[1..]))
    else
      var items := ParseItems(keyed, lead, body);
      if items.None? then None else Some(Parsed(Container(keyed, "", items.value.value), items.value.rest))
  }

  function ParseColon(keyed: bool, s: string): (r: Option<Parsed<(string, string)>>)
    ensures r.Some? && keyed ==>
      s == r.value.value.0 + (":" + r.value.value.1) + r.value.rest && AllSpaces(r.value.value.0)
        && AllSpaces(r.value.value.1)
    ensures r.Some? && !keyed ==> r.value == Parsed(("", ""), s)
  {
    if !keyed then Some(Parsed(("", ""), s))
    else
      var before, colon := Spaces(s), AfterSpaces(s);
      if !StartsWith(colon, ':') then None
      else
        ColonSplits(s);
        Some(Parsed((before, Spaces(colon[1..])), AfterSpaces(colon[1..])))
  }

  /** The items from the first name on, after the whitespace `pre`. */
  function ParseItems(keyed: bool, pre: string, s: string): (r: Option<Parsed<Items>>)
    ensures r.Some? ==> |r.value.rest| < |s|
    decreases |s|, 1
  {
    var name := ParseName(keyed, s);
    if name.None? then None
    else
      var colon := ParseColon(keyed, name.value.rest);
      if colon.None? then None
      else
        var value := ParseTree(colon.value.rest);
        if value.None? then None
        else
          var post, tail := Spaces(value.value.rest), AfterSpaces(value.value.rest);
          var item := (rest: Items) => Item(pre, name.value.value, colon.value.value.0, colon.value.value.1,
                                            value.value.value, post, rest);
          if StartsWith(tail, ',') then
            var more := ParseItems(keyed, Spaces(tail[1..]), AfterSpaces(tail[1..]));
            if more.None? then None else Some(Parsed(item(more.value.value), more.value.rest))
          else if StartsWith(tail, Closing(keyed)) then Some(Parsed(item(End), tail[1..]))
          else None
  }

  // ---------------------------------------------------------------- soundness

  lemma {:induction false} TreeSound(s: string)
    requires ParseTree(s).Some?
    ensures var r := ParseTree(s).value; ValidTree(r.value) && s == Text(r.value) + r.rest
    decreases |s|, 0
  {
    if StartsDelimiter(s) {
      DelimitedSplits(s);
    } else if StartsWith(s, '"') {
      QuotedSplits(s);
    } else if StartsWith(s, '{') {
      ContainerSound(true, s[1..]);
      assert s == "{" + s[1..];
    } else if StartsWith(s, '[') {
      ContainerSound(false, s[1..]);
      assert s == "[" + s[1..];
    }
  }

  lemma {:induction false} ContainerSound(keyed: bool, s: string)
    requires ParseContainer(keyed, s).Some?
    ensures var r := ParseContainer(keyed, s).value;
      ValidTree(r.value) && [Opening(keyed)] + s == Text(r.value) + r.rest
    decreases |s|, 2
  {
    hide Spaces, AfterSpaces, AllSpaces, ParseItems, ItemsText, ValidItems;
    var lead, body := Spaces(s), AfterSpaces(s);
    SpacesSplit(s);
    var r := ParseContainer(keyed, s).value;
    if StartsWith(body, Closing(keyed)) {
      assert body == [Closing(keyed)] + body[1..];
      assert Text(r.value) + r.rest == [Opening(keyed)] + (lead + ([Closing(keyed)] + body[1..]));
      assert ValidTree(r.value) by { EndIsValid(keyed, lead); }
    } else {
      NothingIsSpaces();
      ItemsSound(keyed, lead, body);
      var items := ParseItems(keyed, lead, body).value.value;
      assert Text(r.value) + r.rest == [Opening(keyed)] + (lead + (ItemsText(keyed, items) + r.rest));
    }
  }

  lemma EndIsValid(keyed: bool, lead: string)
    requires AllSpaces(lead)
    ensures ValidTree(Container(keyed, lead, End))
  {}

  lemma {:induction false} ItemsSound(keyed: bool, pre: string, s: string)
    requires AllSpaces(pre) && ParseItems(keyed, pre, s).Some?
    ensures var r := ParseItems(keyed, pre, s).value;
      r.value.Item? && r.value.pre == pre && ValidItems(keyed, r.value) && s == ItemsText(keyed, r.value) + r.rest
    decreases |s|, 1
  {
    hide Spaces, AfterSpaces, AllSpaces, ParseName, ParseColon, ParseTree, Text, ItemsText, ValidTree, ValidName;
    var r := ParseItems(keyed, pre, s).value;
    var name := ParseName(keyed, s).value;
    var colon := ParseColon(keyed, name.rest).value;
    var value := ParseTree(colon.rest).value;
    NothingIsSpaces();
    TreeSound(colon.rest);
    var post, tail := Spaces(value.rest), AfterSpaces(value.rest);
    SpacesSplit(value.rest);
    if StartsWith(tail, ',') {
      var inner := AfterSpaces(tail[1..]);
      SpacesSplit(tail[1..]);
      ItemsSound(keyed, Spaces(tail[1..]), inner);
      assert tail == "," + (Spaces(tail[1..]) + inner);
    } else {
      assert tail == [Closing(keyed)] + tail[1..];
    }
    assert tail == TailText(keyed, r.value.rest) + r.rest;
    ItemsJoin(keyed, r.value, r.rest, s, name.rest, colon.rest, value.rest);
  }

  lemma ItemsJoin(keyed: bool, items: Items, rest: string, s: string, afterName: string, afterColon: string,
                  afterValue: string)
    requires items.Item?
    requires s == NameText(items.name) + afterName
    requires afterName == ColonText(keyed, items) + afterColon
    requires afterColon == Text(items.value) + afterValue
    requires afterValue == items.post + (TailText(keyed, items.rest) + rest)
    ensures s == ItemsText(keyed, items) + rest
  {
    var d := items.post + TailText(keyed, items.rest);
    var c := Text(items.value) + d;
    var b := ColonText(keyed, items) + c;
    assert afterValue == d + rest;
    assert afterColon == c + rest;
    assert afterName == b + rest;
  }

  // ---------------------------------------------------------------- completeness

  /** A text that a value can start with: no whitespace, closing bracket or comma. */
  predicate StartsItem(s: string) {
    |s| > 0 && !IsSpace(s[0]) && s[0] != ',' && s[0] != '}' && s[0] != ']' && s[0] != ':'
  }

  predicate Fitting(tree: Tree, rest: string) { tree.Number? ==> EndsNumber(rest) }

  lemma TextStarts(tree: Tree, rest: string)
    requires ValidTree(tree)
    ensures StartsItem(Text(tree) + rest)
  {
    match tree
    case Number(n) =>
      assert LiteralText(n)[0] == if n.negative then '-' else n.whole[0];
    case _ =>
  }

  lemma NameStarts(name: Name, rest: string)
    requires ValidName(true, name)
    ensures StartsItem(NameText(name) + rest)
  {
    assert NameText(name) != "";
    assert (NameText(name) + rest)[0] == NameText(name)[0];
  }

  lemma Enclosed(mark: string, content: string, rest: string)
    ensures var s := mark + (content + mark) + rest;
      && s[..|mark|] == mark && s[|mark|..] == content + mark + rest
      && s[|mark|..|mark| + |content|] == content && s[2 * |mark| + |content|..] == rest
  {}

  lemma DelimitedParses(content: string, rest: string)
    requires FindDelimiter(content).None?
    ensures var s := DELIMITER + (content + DELIMITER) + rest;
      && StartsDelimiter(s) && FindDelimiter(s[5..]) == Some(|content|)
      && s[5..5 + |content|] == content && s[10 + |content|..] == rest
  {
    hide FindDelimiter;
    var s := DELIMITER + (content + DELIMITER) + rest;
    ClosedAtItsEnd(content, rest);
    Enclosed(DELIMITER, content, rest);
  }

  lemma QuotedParses(body: string, rest: string)
    requires QuotedBody(body)
    ensures var s := "\"" + (body + "\"") + rest;
      && !StartsDelimiter(s) && StartsWith(s, '"') && ScanString(s[1..]) == Some((QuotedValue(body), |body| + 1))
      && s[1..|body| + 1] == body && s[2 + |body|..] == rest
  {
    var s := "\"" + (body + "\"") + rest;
    ScanStringLocal(body + "\"", rest);
    assert (body + "\"")[..|body| + 1] == body + "\"";
    assert s[1..] == (body + "\"") + rest;
    assert !StartsDelimiter(s) by { if |s| >= 5 { assert s[..5][0] == '"'; } }
  }

  lemma NameParses(keyed: bool, name: Name, rest: string)
    requires ValidName(keyed, name)
    requires |rest| > 0 && !IsKeyChar(rest[0])
    ensures ParseName(keyed, NameText(name) + rest) == Some(Parsed(name, rest))
  {
    match name
    case NoName => assert NameText(name) + rest == rest;
    case BareName(n) =>
      RunThenOther(IsKeyChar, n, rest);
      var s := n + rest;
      assert s[0] == n[0];
      assert !StartsDelimiter(s) by { if |s| >= 5 { assert s[..5][0] == s[0]; } }
    case DelimitedName(content) => DelimitedParses(content, rest);
    case QuotedName(body) => QuotedParses(body, rest);
  }

  lemma NumberParses(n: Literal, rest: string)
    requires IsLiteral(n) && !LeadingZero(n) && EndsNumber(rest)
    ensures ParseTree(LiteralText(n) + rest) == Some(Parsed(Number(n), rest))
  {
    hide ScanLiteral, LiteralText, EndsNumber;
    var s := LiteralText(n) + rest;
    LiteralScans(n, rest);
    LiteralStarts(n, rest);
  }

  lemma LiteralStarts(n: Literal, rest: string)
    requires IsLiteral(n)
    ensures var s := LiteralText(n) + rest;
      |s| > 0 && (s[0] == '-' || IsDigit(s[0])) && !StartsDelimiter(s)
  {
    var s := LiteralText(n) + rest;
    assert s[0] == if n.negative then '-' else n.whole[0];
    NotADelimiter(s);
  }

  lemma NotADelimiter(s: string)
    requires |s| > 0 && s[0] != '<'
    ensures !StartsDelimiter(s)
  {
    if |s| >= 5 { assert s[..5][0] == s[0]; }
  }

  lemma WordParses(word: Constant, rest: string)
    ensures ParseTree(ConstantText(word) + rest) == Some(Parsed(Word(word), rest))
  {
    var s := ConstantText(word) + rest;
    assert s[0] == ConstantText(word)[0];
    NotADelimiter(s);
    assert ScanLiteral(s).None?;
    hide ScanLiteral;
    assert s[..|ConstantText(word)|] == ConstantText(word);
    assert s[|ConstantText(word)|..] == rest;
    if word == False { assert s[..4][0] == 'f'; }
    if word == Constant.Null { assert s[..4][0] == 'n'; if |s| >= 5 { assert s[..5][0] == 'n'; } }
  }

  lemma {:induction false} TreeParses(tree: Tree, rest: string)
    requires ValidTree(tree) && Fitting(tree, rest)
    ensures ParseTree(Text(tree) + rest) == Some(Parsed(tree, rest))
    decreases tree, 1
  {
    hide LiteralText, ScanLiteral, ParseScalar, FindDelimiter, ScanString, ItemsText;
    match tree
    case Delimited(content) => DelimitedParses(content, rest);
    case Quoted(body) => QuotedParses(body, rest);
    case Number(literal) => NumberParses(literal, rest);
    case Word(word) => WordParses(word, rest);
    case Container(keyed, lead, items) => ContainerParses(tree, rest);
  }

  lemma {:induction false} ContainerParses(tree: Tree, rest: string)
    requires ValidTree(tree) && tree.Container?
    ensures ParseTree(Text(tree) + rest) == Some(Parsed(tree, rest))
    decreases tree, 0
  {
    hide ItemsText, ParseItems, Spaces, AfterSpaces, AllSpaces, ParseScalar;
    var Container(keyed, lead, items) := tree;
    var s := Text(tree) + rest;
    assert s[0] == Opening(keyed);
    assert !StartsDelimiter(s) by { if |s| >= 5 { assert s[..5][0] == s[0]; } }
    if items.End? {
      assert s[1..] == lead + ([Closing(keyed)] + rest);
      SpacesThenSolid(lead, [Closing(keyed)] + rest);
    } else {
      var body := ItemsText(keyed, items) + rest;
      assert s[1..] == items.pre + body;
      ItemsStart(keyed, items, rest);
      SpacesThenSolid(items.pre, body);
      ItemsParse(keyed, items, rest);
    }
  }

  lemma ItemsStart(keyed: bool, items: Items, rest: string)
    requires items.Item? && ValidItems(keyed, items)
    ensures StartsItem(ItemsText(keyed, items) + rest)
  {
    var tail := items.post + TailText(keyed, items.rest);
    if keyed {
      NameStarts(items.name, ColonText(keyed, items) + (Text(items.value) + tail));
    } else {
      TextStarts(items.value, tail);
      assert ItemsText(keyed, items) == Text(items.value) + tail;
    }
  }

  lemma TailStarts(keyed: bool, items: Items, rest: string)
    requires items.Item? && ValidItems(keyed, items)
    ensures var t := TailText(keyed, items.rest) + rest;
      |t| > 0 && (t[0] == ',' || t[0] == Closing(keyed)) && StartsSolid(t) && EndsNumber(items.post + t)
  {
    var t := TailText(keyed, items.rest) + rest;
    assert (items.post + t)[0] == if |items.post| > 0 then items.post[0] else t[0];
  }

  lemma ColonParses(keyed: bool, items: Items, rest: string)
    requires items.Item? && ValidItems(keyed, items) && StartsItem(rest)
    ensures ParseColon(keyed, ColonText(keyed, items) + rest)
         == Some(Parsed((items.beforeColon, items.afterColon), rest))
  {
    if keyed {
      var colon := ":" + (items.afterColon + rest);
      assert ColonText(keyed, items) + rest == items.beforeColon + colon;
      SpacesThenSolid(items.beforeColon, colon);
      assert colon[1..] == items.afterColon + rest;
      SpacesThenSolid(items.afterColon, rest);
    } else {
      assert ColonText(keyed, items) + rest == rest;
    }
  }

  lemma {:induction false} ItemsParse(keyed: bool, items: Items, rest: string)
    requires items.Item? && ValidItems(keyed, items)
    ensures ParseItems(keyed, items.pre, ItemsText(keyed, items) + rest) == Some(Parsed(items, rest))
    decreases items, 2
  {
    hide ItemsText, Text, ColonText, NameText, ParseName, ParseColon, ParseTree, Spaces, AfterSpaces, AllSpaces,
      IsSpace, ValidName, ValidTree, StartsItem;
    var tail := TailText(keyed, items.rest) + rest;
    var afterColon := Text(items.value) + (items.post + tail);
    var afterName := ColonText(keyed, items) + afterColon;
    var s := ItemsText(keyed, items) + rest;
    assert s == NameText(items.name) + afterName by {
      ItemsJoin(keyed, items, rest, NameText(items.name) + afterName, afterName, afterColon, items.post + tail);
    }
    TextStarts(items.value, items.post + tail);
    TailStarts(keyed, items, rest);
    ColonParses(keyed, items, afterColon);
    NameThenColon(keyed, items, afterColon);
    TreeParses(items.value, items.post + tail);
    SpacesThenSolid(items.post, tail);
    if items.rest.Item? {
      var inner := ItemsText(keyed, items.rest) + rest;
      assert tail == "," + (items.rest.pre + inner);
      assert tail[1..] == items.rest.pre + inner;
      ItemsStart(keyed, items.rest, rest);
      SpacesThenSolid(items.rest.pre, inner);
      ItemsParse(keyed, items.rest, rest);
    } else {
      assert tail[1..] == rest;
    }
  }

  lemma NameThenColon(keyed: bool, items: Items, afterColon: string)
    requires items.Item? && ValidItems(keyed, items)
    ensures var afterName := ColonText(keyed, items) + afterColon;
      ParseName(keyed, NameText(items.name) + afterName) == Some(Parsed(items.name, afterName))
  {
    var afterName := ColonText(keyed, items) + afterColon;
    if keyed {
      assert afterName[0] == if |items.beforeColon| > 0 then items.beforeColon[0] else ':';
      NameParses(keyed, items.name, afterName);
    } else {
      assert NameText(items.name) + afterName == afterName;
    }
  }

  // ---------------------------------------------------------------- the grammar

  /** A text has at most one derivation, and the parser finds it. */
  lemma Unambiguous(a: Tree, b: Tree)
    requires ValidTree(a) && ValidTree(b) && Text(a) == Text(b)
    ensures a == b
  {
    TreeParses(a, "");
    TreeParses(b, "");
    assert Text(a) + "" == Text(b) + "";
  }
}
