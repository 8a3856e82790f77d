/**
  `_resolve_reference`: a local `$ref` as a JSON Pointer (RFC 6901) into the schema document.
  How Python decodes a run of bytes that are not ASCII, and its `int`, are parameters.
  */
module JsonPointer {
  import opened Wrappers
  import opened JsonValues
  import opened Numerals

  /** One step from a node to a child: a dictionary key or an array index. */
  datatype Segment = Key(key: string) | Index(index: nat)

  datatype Decoders = Decoders(decodeHigh: seq<nat> -> string, toInt: string -> Option<int>)

  // ---------------------------------------------------------------- text

  /** `s.split(separator)`. */
  function Split(s: string, separator: char): (parts: seq<string>)
    ensures |parts| > 0
  {
    if |s| == 0 then [""]
    else
      var rest := Split(s[1..], separator);
      if s[0] == separator then [""] + rest
      else [[s[0]] + rest[0]] + rest[1..]
  }

  /** `s.replace(a + b, r)` for a two-character pattern and a one-character replacement. */
  function ReplacePair(s: string, a: char, b: char, r: char): string {
    if |s| == 0 then ""
    else if |s| >= 2 && s[0] == a && s[1] == b then [r] + ReplacePair(s[2..], a, b, r)
    else [s[0]] + ReplacePair(s[1..], a, b, r)
  }

  function HexValue(c: char): (v: Option<nat>)
    ensures v.Some? ==> v.value < 16
  {
    if '0' <= c <= '9' then Some(c as int - '0' as int)
    else if 'a' <= c <= 'f' then Some(c as int - 'a' as int + 10)
    else if 'A' <= c <= 'F' then Some(c as int - 'A' as int + 10)
    else None
  }

  /** The byte of the percent escape that the text starts with. */
  function Escaped(s: string): (b: Option<nat>)
    ensures b.Some? ==> |s| >= 3 && b.value < 256
  {
    if |s| < 3 || s[0] != '%' || HexValue(s[1]).None? || HexValue(s[2]).None? then None
    else Some(16 * HexValue(s[1]).value + HexValue(s[2]).value)
  }

  /** The text of the bytes read since the last ASCII character. */
  function Flushed(high: seq<nat>, decoders: Decoders): string {
    if |high| == 0 then "" else decoders.decodeHigh(high)
  }

  /** `unquote`, with the bytes above ASCII that wait to be decoded together. A malformed escape is left as it is. */
  function UnquoteAfter(s: string, high: seq<nat>, decoders: Decoders): string {
    if |s| == 0 then Flushed(high, decoders)
    else
      match Escaped(s)
      case Some(b) =>
        if b < 128 then Flushed(high, decoders) + [b as char] + UnquoteAfter(s[3..], [], decoders)
        else UnquoteAfter(s[3..], high + [b], decoders)
      case None => Flushed(high, decoders) + [s[0]] + UnquoteAfter(s[1..], [], decoders)
  }

  function Unquote(s: string, decoders: Decoders): string { UnquoteAfter(s, [], decoders) }

  /** Tildes are decoded first, percent escapes after. */
  function DecodeToken(raw: string, decoders: Decoders): string {
    Unquote(ReplacePair(ReplacePair(raw, '~', '1', '/'), '~', '0', '~'), decoders)
  }

  // ---------------------------------------------------------------- resolving

  function Child(node: Json, token: string, decoders: Decoders): Option<Json> {
    match node
    case Obj(members) => Get(members, token)
    case Arr(items) =>
      var index := decoders.toInt(token);
      if index.Some? && 0 <= index.value < |items| then Some(items[index.value]) else None
    case _ => None
  }

  function Walk(node: Json, tokens: seq<string>, decoders: Decoders): Option<Json> {
    if |tokens| == 0 then Some(node)
    else
      var child := Child(node, DecodeToken(tokens[0], decoders), decoders);
      if child.None? then None else Walk(child.value, tokens[1..], decoders)
  }

  function Resolve(reference: string, root: Json, decoders: Decoders): Option<Json> {
    if |reference| == 0 || reference[0] != '#' then None
    else if |reference| == 1 then Some(root)
    else if reference[1] != '/' then None
    else Walk(root, Split(reference[2..], '/'), decoders)
  }

  /** The loop of lines 874-892. */
  method ResolveReference(reference: string, root: Json, decoders: Decoders) returns (target: Option<Json>)
    ensures target == Resolve(reference, root, decoders)
  {
    if |reference| == 0 || reference[0] != '#' { return None; }
    var pointer := reference[1..];
    if pointer == "" { return Some(root); }
    if pointer[0] != '/' { return None; }
    var tokens := Split(pointer[1..], '/');
    assert pointer[1..] == reference[2..];
    var node := root;
    for i := 0 to |tokens|
      invariant Walk(root, tokens, decoders) == Walk(node, tokens[i..], decoders)
    {
      assert tokens[i..][1..] == tokens[i + 1..];
      var token := DecodeToken(tokens[i], decoders);
      if node.Obj? {
        if token !in Keys(node.members) { return None; }
        node := Lookup(node.members, token);
      } else if node.Arr? {
        var index := decoders.toInt(token);
        if index.None? { return None; }
        if index.value < 0 || index.value >= |node.items| { return None; }
        node := node.items[index.value];
      } else {
        return None;
      }
    }
    return Some(node);
  }

  // ---------------------------------------------------------------- what a reference reaches

  /** The node at a path, independently of any pointer syntax. */
  function NodeAt(root: Json, path: seq<Segment>): Option<Json> {
    if |path| == 0 then Some(root)
    else
      match path[0]
      case Key(k) =>
        if root.Obj? && k in Keys(root.members) then NodeAt(Lookup(root.members, k), path[1..]) else None
      case Index(i) =>
        if root.Arr? && i < |root.items| then NodeAt(root.items[i], path[1..]) else None
  }

  /** Whatever a reference resolves to is a node of the document. */
  lemma ResolvedTargetIsANode(reference: string, root: Json, decoders: Decoders) returns (path: seq<Segment>)
    requires Resolve(reference, root, decoders).Some?
    ensures NodeAt(root, path) == Resolve(reference, root, decoders)
  {
    if |reference| == 1 { path := []; } else { path := WalkedPath(root, Split(reference[2..], '/'), decoders); }
  }

  lemma {:induction false} WalkedPath(node: Json, tokens: seq<string>, decoders: Decoders)
    returns (path: seq<Segment>)
    requires Walk(node, tokens, decoders).Some?
    ensures NodeAt(node, path) == Walk(node, tokens, decoders)
  {
    if |tokens| == 0 { return []; }
    var token := DecodeToken(tokens[0], decoders);
    var rest := WalkedPath(Child(node, token, decoders).value, tokens[1..], decoders);
    var step := if node.Obj? then Key(token) else Index(decoders.toInt(token).value);
    path := [step] + rest;
    assert path[1..] == rest;
  }

  // ---------------------------------------------------------------- round trip

  /** RFC 6901 section 3: `~` is written `~0` and `/` is written `~1`. */
  function EscapeKey(key: string): string {
    if |key| == 0 then ""
    else (if key[0] == '~' then "~0" else if key[0] == '/' then "~1" else [key[0]]) + EscapeKey(key[1..])
  }

  function Token(segment: Segment): string {
    match segment
    case Key(k) => EscapeKey(k)
    case Index(i) => Numeral(i)
  }

  function PointerText(path: seq<Segment>): string {
    if |path| == 0 then "" else "/" + Token(path[0]) + PointerText(path[1..])
  }

  /** Keys that percent-decoding leaves alone, such as every key without a percent sign. */
  ghost predicate PlainKeys(path: seq<Segment>, decoders: Decoders) {
    forall segment | segment in path :: segment.Key? ==> Unquote(segment.key, decoders) == segment.key
  }

  lemma {:induction false} NothingToUnquote(s: string, decoders: Decoders)
    requires '%' !in s
    ensures Unquote(s, decoders) == s
  {
    if |s| > 0 { NothingToUnquote(s[1..], decoders); }
  }

  /** What the model needs to know of Python: bytes above ASCII give no ASCII, and `int` reads numerals. */
  ghost predicate Lawful(decoders: Decoders) {
    && (forall high, c | (forall b | b in high :: b >= 128) && c in decoders.decodeHigh(high) :: c as int >= 128)
    && (forall n: nat :: decoders.toInt(Numeral(n)) == Some(n))
  }

  /** Following the pointer written for a path reaches exactly the node at that path. */
  lemma PointerRoundTrip(root: Json, path: seq<Segment>, decoders: Decoders)
    requires Lawful(decoders) && PlainKeys(path, decoders) && NodeAt(root, path).Some?
    ensures Resolve("#" + PointerText(path), root, decoders) == NodeAt(root, path)
  {
    hide Lawful, PlainKeys, Split, Walk, Token;
    var reference := "#" + PointerText(path);
    if |path| > 0 {
      var tokens := Tokens(path);
      SplitPointerText(path);
      assert reference[2..] == PointerText(path)[1..];
      WalkTokens(root, path, decoders);
    }
  }

  function Tokens(path: seq<Segment>): seq<string> {
    seq(|path|, i requires 0 <= i < |path| => Token(path[i]))
  }

  lemma {:induction false} WalkTokens(node: Json, path: seq<Segment>, decoders: Decoders)
    requires Lawful(decoders) && PlainKeys(path, decoders) && NodeAt(node, path).Some?
    ensures Walk(node, Tokens(path), decoders) == NodeAt(node, path)
  {
    if |path| > 0 {
      assert Tokens(path)[1..] == Tokens(path[1..]);
      var token := Tokens(path)[0];
      match path[0] {
        case Key(k) =>
          assert path[0] in path;
          EscapeDecodes(k);
          assert DecodeToken(token, decoders) == k;
          WalkTokens(Lookup(node.members, k), path[1..], decoders);
        case Index(i) =>
          DigitsDecode(token, '1', '/');
          DigitsDecode(token, '0', '~');
          DigitsAreNoPercent(i);
          NothingToUnquote(token, decoders);
          WalkTokens(node.items[i], path[1..], decoders);
      }
    }
  }

  lemma DigitsAreNoPercent(n: nat)
    ensures '%' !in Numeral(n) && '~' !in Numeral(n)
  {}

  lemma {:induction false} DigitsDecode(s: string, b: char, r: char)
    requires '~' !in s
    ensures ReplacePair(s, '~', b, r) == s
  {
    if |s| > 0 { DigitsDecode(s[1..], b, r); }
  }

  /** The key after `~1` has been decoded but `~0` has not. */
  function HalfEscaped(key: string): string {
    if |key| == 0 then "" else (if key[0] == '~' then "~0" else [key[0]]) + HalfEscaped(key[1..])
  }

  lemma EscapeDecodes(key: string)
    ensures ReplacePair(ReplacePair(EscapeKey(key), '~', '1', '/'), '~', '0', '~') == key
  {
    SlashesDecode(key);
    TildesDecode(key);
  }

  lemma {:induction false} SlashesDecode(key: string)
    ensures ReplacePair(EscapeKey(key), '~', '1', '/') == HalfEscaped(key)
  {
    if |key| > 0 {
      SlashesDecode(key[1..]);
      var e, rest := EscapeKey(key), EscapeKey(key[1..]);
      if key[0] == '~' {
        assert e[1..] == ['0'] + rest;
        assert (['0'] + rest)[1..] == rest;
      } else if key[0] == '/' {
        assert e[2..] == rest;
      } else {
        assert e[1..] == rest;
      }
    }
  }

  lemma {:induction false} TildesDecode(key: string)
    ensures ReplacePair(HalfEscaped(key), '~', '0', '~') == key
  {
    if |key| > 0 {
      TildesDecode(key[1..]);
      var h := HalfEscaped(key);
      if key[0] == '~' { assert h[2..] == HalfEscaped(key[1..]); } else { assert h[1..] == HalfEscaped(key[1..]); }
    }
  }

  lemma {:induction false} NoSlashInToken(segment: Segment)
    ensures '/' !in Token(segment)
  {
    match segment
    case Key(k) => NoSlashInKey(k);
    case Index(_) =>
  }

  lemma {:induction false} NoSlashInKey(key: string)
    ensures '/' !in EscapeKey(key)
  {
    if |key| > 0 { NoSlashInKey(key[1..]); }
  }

  lemma {:induction false} SplitPointerText(path: seq<Segment>)
    requires |path| > 0
    ensures |PointerText(path)| > 0 && PointerText(path)[0] == '/'
    ensures Split(PointerText(path)[1..], '/') == Tokens(path)
  {
    hide Split, Token;
    var token, rest := Token(path[0]), PointerText(path[1..]);
    assert PointerText(path)[1..] == token + rest;
    NoSlashInToken(path[0]);
    if |path| == 1 {
      SplitWhole(token);
      assert token + rest == token;
      assert Tokens(path) == [token];
    } else {
      SplitPointerText(path[1..]);
      assert rest == "/" + rest[1..];
      SplitFirst(token, rest[1..]);
      assert token + rest == token + "/" + rest[1..];
      assert Tokens(path) == [token] + Tokens(path[1..]);
    }
  }

  lemma {:induction false} SplitWhole(token: string)
    requires '/' !in token
    ensures Split(token, '/') == [token]
  {
    if |token| > 0 {
      assert token[0] in token;
      SplitWhole(token[1..]);
      assert token == [token[0]] + token[1..];
    }
  }

  lemma {:induction false} SplitFirst(token: string, rest: string)
    requires '/' !in token
    ensures Split(token + "/" + rest, '/') == [token] + Split(rest, '/')
  {
    var s := token + "/" + rest;
    if |token| == 0 {
      assert s[1..] == rest;
    } else {
      SplitFirst(token[1..], rest);
      assert s[1..] == token[1..] + "/" + rest;
      assert s[0] == token[0] && token[0] in token;
      assert token == [token[0]] + token[1..];
    }
  }

  // ---------------------------------------------------------------- references that lead nowhere

  /** `#` alone is the document; anything else must go on with a slash. */
  lemma OnlyPointersResolve(reference: string, root: Json, decoders: Decoders)
    ensures Resolve("#", root, decoders) == Some(root)
    ensures reference != "#" && !("#/" <= reference) ==> Resolve(reference, root, decoders) == None
  {}

  lemma LastStep(front: string, last: string, root: Json, decoders: Decoders)
    requires '/' !in last
    ensures Resolve("#/" + front + "/" + last, root, decoders) ==
      match Resolve("#/" + front, root, decoders)
      case Some(node) => Child(node, DecodeToken(last, decoders), decoders)
      case None => None
  {
    var reference := "#/" + front + "/" + last;
    assert reference[2..] == front + "/" + last && ("#/" + front)[2..] == front;
    SplitLast(front, last);
    hide Split, DecodeToken;
    WalkSnoc(root, Split(front, '/'), last, decoders);
  }

  lemma {:induction false} SplitLast(front: string, last: string)
    requires '/' !in last
    ensures Split(front + "/" + last, '/') == Split(front, '/') + [last]
  {
    var s := front + "/" + last;
    if |front| == 0 {
      SplitWhole(last);
      assert s[1..] == last;
    } else {
      SplitLast(front[1..], last);
      assert s[1..] == front[1..] + "/" + last;
    }
  }

  lemma {:induction false} WalkSnoc(node: Json, tokens: seq<string>, last: string, decoders: Decoders)
    ensures Walk(node, tokens + [last], decoders) ==
      match Walk(node, tokens, decoders)
      case Some(found) => Child(found, DecodeToken(last, decoders), decoders)
      case None => None
  {
    hide DecodeToken;
    var all := tokens + [last];
    if |tokens| == 0 {
      assert all[1..] == [];
    } else {
      assert all[0] == tokens[0] && all[1..] == tokens[1..] + [last];
      var child := Child(node, DecodeToken(tokens[0], decoders), decoders);
      if child.Some? { WalkSnoc(child.value, tokens[1..], last, decoders); }
    }
  }

  /**
    One more step from a node: a key the dictionary has, an index in range. An absent key, an index out of
    range or that is no number, and any step from a scalar lead nowhere.
    */
  lemma StepResolvesExactly(front: string, token: string, root: Json, decoders: Decoders)
    requires '/' !in token && Resolve("#/" + front, root, decoders).Some?
    ensures var node := Resolve("#/" + front, root, decoders).value;
      var key := DecodeToken(token, decoders);
      Resolve("#/" + front + "/" + token, root, decoders) ==
        if node.Obj? && key in Keys(node.members) then Some(Lookup(node.members, key))
        else if node.Arr? && decoders.toInt(key).Some? && 0 <= decoders.toInt(key).value < |node.items|
        then Some(node.items[decoders.toInt(key).value])
        else None
  {
    hide Resolve, DecodeToken;
    LastStep(front, token, root, decoders);
  }

  /** Behind a reference that leads nowhere nothing is found. */
  lemma NothingBehindNothing(front: string, token: string, root: Json, decoders: Decoders)
    requires '/' !in token && Resolve("#/" + front, root, decoders).None?
    ensures Resolve("#/" + front + "/" + token, root, decoders).None?
  {
    hide Resolve, DecodeToken;
    LastStep(front, token, root, decoders);
  }

  /** The first step is from the document itself. */
  lemma FirstStep(token: string, root: Json, decoders: Decoders)
    requires '/' !in token
    ensures Resolve("#/" + token, root, decoders) == Child(root, DecodeToken(token, decoders), decoders)
  {
    SplitWhole(token);
    assert ("#/" + token)[2..] == token;
    hide DecodeToken;
    WalkSnoc(root, [], token, decoders);
    assert [] + [token] == [token];
  }
}
