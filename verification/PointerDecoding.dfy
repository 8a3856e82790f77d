/**
  `_resolve_reference` splits a pointer, replaces tildes and then decodes percent escapes. RFC 6901 decodes
  percent escapes first. The two read a pointer alike exactly when its escapes hide no slash and no part of a
  tilde pair.
  */
module PointerDecoding {
  import opened Wrappers
  import opened JsonPointer

  /** RFC 6901 section 6 decodes percent escapes before tildes. */
  function StandardToken(raw: string, decoders: Decoders): string {
    ReplacePair(ReplacePair(Unquote(raw, decoders), '~', '1', '/'), '~', '0', '~')
  }

  predicate StartsWithPair(s: string) { |s| >= 2 && s[0] == '~' && (s[1] == '0' || s[1] == '1') }

  /** How many `~0` and `~1` there are. */
  function Pairs(s: string): (n: nat) {
    if |s| == 0 then 0 else (if StartsWithPair(s) then 1 else 0) + Pairs(s[1..])
  }

  /** Both replacements in one pass. */
  function Untilde(s: string): string {
    if |s| == 0 then ""
    else if StartsWithPair(s) then [if s[1] == '0' then '~' else '/'] + Untilde(s[2..])
    else [s[0]] + Untilde(s[1..])
  }

  lemma {:induction false} OnePassOfTildes(s: string)
    ensures ReplacePair(ReplacePair(s, '~', '1', '/'), '~', '0', '~') == Untilde(s)
    decreases |s|
  {
    if |s| > 0 {
      var r := ReplacePair(s, '~', '1', '/');
      if StartsWithPair(s) {
        OnePassOfTildes(s[2..]);
        var rest := ReplacePair(s[2..], '~', '1', '/');
        if s[1] == '0' {
          assert s[1..][0] == '0' && s[1..][1..] == s[2..];
          assert ReplacePair(s[1..], '~', '1', '/') == ['0'] + rest;
          assert r == ['~'] + (['0'] + rest);
          assert r[2..] == rest;
        } else {
          assert r[1..] == rest;
        }
      } else {
        OnePassOfTildes(s[1..]);
        assert r[1..] == ReplacePair(s[1..], '~', '1', '/');
      }
    }
  }

  /** Every pair becomes one character. */
  lemma {:induction false} UntildeShortens(s: string)
    ensures |Untilde(s)| == |s| - Pairs(s)
    decreases |s|
  {
    if |s| > 0 {
      if StartsWithPair(s) {
        UntildeShortens(s[2..]);
        assert s[1..][1..] == s[2..];
      } else {
        UntildeShortens(s[1..]);
      }
    }
  }

  /** Whether `c` in front of a text makes a pair of its own. */
  lemma PairsInFront(c: char, s: string)
    ensures var made := c == '~' && |s| > 0 && (s[0] == '0' || s[0] == '1');
      && Pairs([c] + s) == (if made then 1 else 0) + Pairs(s)
      && (!made ==> Untilde([c] + s) == [c] + Untilde(s))
  {
    assert ([c] + s)[1..] == s;
  }

  /** Text without a tilde in front changes neither the pairs nor how they are replaced. */
  lemma {:induction false} TildesBehind(front: string, s: string)
    requires '~' !in front
    ensures Pairs(front + s) == Pairs(s) && Untilde(front + s) == front + Untilde(s)
  {
    hide Pairs, Untilde;
    if |front| == 0 {
      assert front + s == s;
    } else {
      TildesBehind(front[1..], s);
      PairsInFront(front[0], front[1..] + s);
      assert front[0] in front;
      assert front == [front[0]] + front[1..];
      assert front + s == [front[0]] + (front[1..] + s);
    }
  }

  /** Replacing tildes behind a percent sign makes no escape and breaks none. */
  predicate HexAt(s: string, i: nat) { i < |s| && HexValue(s[i]).Some? }

  lemma SameEscape(a: string, b: string)
    requires |a| > 0 && |b| > 0 && a[0] == b[0]
    requires HexAt(a, 1) || HexAt(b, 1) ==> |a| > 1 && |b| > 1 && a[1] == b[1]
    requires HexAt(a, 1) && (HexAt(a, 2) || HexAt(b, 2)) ==> |a| > 2 && |b| > 2 && a[2] == b[2]
    ensures Escaped(a) == Escaped(b)
  {
    hide HexValue;
  }

  /** What replacing leaves of the first three characters, if none of them is a tilde. */
  lemma FrontKept(s: string)
    ensures |s| > 0 && s[0] != '~' ==> Untilde(s) == [s[0]] + Untilde(s[1..])
    ensures |s| > 0 ==> |Untilde(s)| > 0 && HexValue(Untilde(s)[0]).Some? == HexValue(s[0]).Some?
    ensures |s| == 0 ==> Untilde(s) == ""
  {}

  lemma EscapesKept(s: string)
    ensures Escaped(Untilde(s)) == Escaped(s)
    ensures Escaped(s).Some? ==> Untilde(s)[3..] == Untilde(s[3..]) && Pairs(s) == Pairs(s[3..])
  {
    FrontKept(s);
    if |s| > 0 {
      FrontKept(s[1..]);
      if |s| > 1 { FrontKept(s[2..]); }
    }
    if Escaped(s).Some? {
      var front := s[..3];
      assert front == [s[0], s[1], s[2]];
      assert s == front + s[3..];
      TildesBehind(front, s[3..]);
    }
    EscapesAgree(s);
  }

  lemma EscapesAgree(s: string)
    ensures Escaped(Untilde(s)) == Escaped(s)
  {
    FrontKept(s);
    if |s| > 0 && s[0] == '%' {
      FrontKept(s[1..]);
      var u := Untilde(s);
      assert u[1..] == Untilde(s[1..]);
      if |s| > 1 && s[1] != '~' {
        FrontKept(s[2..]);
        assert u[1] == s[1] && u[2..] == Untilde(s[2..]);
        if |s| > 2 && s[2] != '~' { assert u[2] == s[2]; }
      }
      hide Untilde;
      SameEscape(u, s);
    }
  }

  /** Percent-decoding keeps every pair, and where it makes no new one the two decodings commute. */
  ghost predicate Commutes(raw: string, high: seq<nat>, decoders: Decoders) {
    var decoded := UnquoteAfter(raw, high, decoders);
    var other := UnquoteAfter(Untilde(raw), high, decoders);
    && Pairs(decoded) >= Pairs(raw) && |other| == |decoded| - Pairs(raw)
    && (Pairs(decoded) == Pairs(raw) ==> Untilde(decoded) == other)
  }

  ghost predicate AllHigh(high: seq<nat>) { forall b | b in high :: b >= 128 }

  lemma FlushedIsNotAscii(high: seq<nat>, decoders: Decoders)
    requires Lawful(decoders) && AllHigh(high)
    ensures '~' !in Flushed(high, decoders) && '/' !in Flushed(high, decoders)
  {}

  /** A character that starts no escape stays. */
  lemma UnquoteKeeps(c: char, s: string, high: seq<nat>, decoders: Decoders)
    requires Escaped([c] + s).None?
    ensures UnquoteAfter([c] + s, high, decoders) == Flushed(high, decoders) + ([c] + UnquoteAfter(s, [], decoders))
  {
    hide Escaped, Flushed;
    var t := [c] + s;
    assert t[0] == c && t[1..] == s;
    assert UnquoteAfter(t, high, decoders) == Flushed(high, decoders) + [c] + UnquoteAfter(s, [], decoders);
    hide UnquoteAfter;
    Regrouped(Flushed(high, decoders), [c], UnquoteAfter(s, [], decoders));
  }

  lemma Regrouped(a: string, b: string, c: string)
    ensures a + b + c == a + (b + c)
  {}

  lemma UnquoteKeepsPlain(c: char, s: string, high: seq<nat>, decoders: Decoders)
    requires c != '%'
    ensures UnquoteAfter([c] + s, high, decoders) == Flushed(high, decoders) + ([c] + UnquoteAfter(s, [], decoders))
  {
    assert Escaped([c] + s).None?;
    hide Escaped;
    UnquoteKeeps(c, s, high, decoders);
  }

  /** What waits to be decoded makes no difference. */
  lemma CommutesBehind(raw: string, high: seq<nat>, decoders: Decoders, c: char, decoded: string, other: string,
                       pairs: nat)
    requires Lawful(decoders) && AllHigh(high)
    requires UnquoteAfter(raw, high, decoders) == Flushed(high, decoders) + ([c] + decoded)
    requires UnquoteAfter(Untilde(raw), high, decoders) == Flushed(high, decoders) + ([c] + other)
    requires Pairs(raw) == pairs && |other| == |decoded| - pairs && Pairs(decoded) >= pairs
    requires Pairs(decoded) == pairs ==> Untilde(decoded) == other
    ensures Commutes(raw, high, decoders)
  {
    hide Lawful, Pairs, Untilde, UnquoteAfter, Flushed;
    FlushedIsNotAscii(high, decoders);
    TildesBehind(Flushed(high, decoders), [c] + decoded);
    PairsInFront(c, decoded);
  }

  lemma LowEscapeCommutes(raw: string, high: seq<nat>, decoders: Decoders, b: nat)
    requires Lawful(decoders) && AllHigh(high) && Escaped(raw) == Some(b) && b < 128 && Commutes(raw[3..], [], decoders)
    ensures Commutes(raw, high, decoders)
  {
    EscapesKept(raw);
    hide Lawful, Pairs, Untilde, Escaped, Flushed;
    var rest, c := raw[3..], b as char;
    var decoded, other := UnquoteAfter(rest, [], decoders), UnquoteAfter(Untilde(rest), [], decoders);
    assert UnquoteAfter(raw, high, decoders) == Flushed(high, decoders) + ([c] + decoded);
    assert UnquoteAfter(Untilde(raw), high, decoders) == Flushed(high, decoders) + ([c] + other);
    CommutesBehind(raw, high, decoders, c, decoded, other, Pairs(rest));
  }

  lemma HighEscapeCommutes(raw: string, high: seq<nat>, decoders: Decoders, b: nat)
    requires Escaped(raw) == Some(b) && b >= 128 && Commutes(raw[3..], high + [b], decoders)
    ensures Commutes(raw, high, decoders)
  {
    EscapesKept(raw);
    hide Pairs, Untilde, Escaped, Flushed;
  }

  /** A pair in front of a text. */
  lemma PairInFront(digit: char, s: string)
    requires digit == '0' || digit == '1'
    ensures Pairs(['~', digit] + s) == 1 + Pairs(s)
    ensures Untilde(['~', digit] + s) == [if digit == '0' then '~' else '/'] + Untilde(s)
  {
    var pair := ['~', digit] + s;
    assert pair == ['~'] + ([digit] + s) && pair[2..] == s;
    PairsInFront(digit, s);
    PairsInFront('~', [digit] + s);
  }

  /** A pair stays a pair when it is percent-decoded. */
  lemma UnquotePair(digit: char, s: string, high: seq<nat>, decoders: Decoders)
    requires digit == '0' || digit == '1'
    ensures UnquoteAfter(['~', digit] + s, high, decoders)
         == Flushed(high, decoders) + (['~', digit] + UnquoteAfter(s, [], decoders))
  {
    NothingFlushed(decoders);
    var decoded := UnquoteAfter(s, [], decoders);
    hide Flushed, UnquoteAfter, Escaped;
    UnquoteKeepsPlain('~', [digit] + s, high, decoders);
    UnquoteKeepsPlain(digit, s, [], decoders);
    TwoInFront('~', digit, s);
    TwoInFront('~', digit, decoded);
    Behind("", [digit] + decoded);
  }

  lemma NothingFlushed(decoders: Decoders)
    ensures Flushed([], decoders) == ""
  {}

  lemma TwoInFront(a: char, b: char, s: string)
    ensures [a, b] + s == [a] + ([b] + s)
  {}

  lemma Behind(empty: string, s: string)
    requires empty == ""
    ensures empty + s == s
  {}

  lemma PairCommutes(raw: string, high: seq<nat>, decoders: Decoders)
    requires Lawful(decoders) && AllHigh(high) && StartsWithPair(raw) && Commutes(raw[2..], [], decoders)
    ensures Commutes(raw, high, decoders)
  {
    var rest, flushed, digit := raw[2..], Flushed(high, decoders), raw[1];
    var c := if digit == '0' then '~' else '/';
    var decoded := UnquoteAfter(rest, [], decoders);
    FlushedIsNotAscii(high, decoders);
    hide Lawful, Flushed, Pairs, Untilde, UnquoteAfter;
    assert raw == ['~', digit] + rest;
    PairInFront(digit, rest);
    PairInFront(digit, decoded);
    UnquotePair(digit, rest, high, decoders);
    UnquoteKeepsPlain(c, Untilde(rest), high, decoders);
    TildesBehind(flushed, ['~', digit] + decoded);
  }

  lemma CharCommutes(raw: string, high: seq<nat>, decoders: Decoders)
    requires Lawful(decoders) && AllHigh(high) && |raw| > 0 && Escaped(raw).None? && !StartsWithPair(raw)
    requires Commutes(raw[1..], [], decoders)
    ensures Commutes(raw, high, decoders)
  {
    EscapesKept(raw);
    var rest, c := raw[1..], raw[0];
    assert Pairs(raw) == Pairs(rest) && Untilde(raw) == [c] + Untilde(rest);
    hide Lawful, Pairs, Untilde, Escaped, Flushed, UnquoteAfter;
    assert raw == [c] + rest;
    UnquoteKeeps(c, rest, high, decoders);
    UnquoteKeeps(c, Untilde(rest), high, decoders);
    CommutesBehind(raw, high, decoders, c, UnquoteAfter(rest, [], decoders),
      UnquoteAfter(Untilde(rest), [], decoders), Pairs(rest));
  }

  lemma NothingCommutes(high: seq<nat>, decoders: Decoders)
    requires Lawful(decoders) && AllHigh(high)
    ensures Commutes("", high, decoders)
  {
    FlushedIsNotAscii(high, decoders);
    TildesBehind(Flushed(high, decoders), "");
    assert Flushed(high, decoders) + "" == Flushed(high, decoders);
  }

  lemma {:induction false} DecodingsCommute(raw: string, high: seq<nat>, decoders: Decoders)
    requires Lawful(decoders) && AllHigh(high)
    ensures Commutes(raw, high, decoders)
    decreases |raw|
  {
    hide Lawful, Commutes;
    if |raw| == 0 {
      NothingCommutes(high, decoders);
    } else if Escaped(raw).Some? {
      var b := Escaped(raw).value;
      if b < 128 {
        DecodingsCommute(raw[3..], [], decoders);
        LowEscapeCommutes(raw, high, decoders, b);
      } else {
        DecodingsCommute(raw[3..], high + [b], decoders);
        HighEscapeCommutes(raw, high, decoders, b);
      }
    } else if StartsWithPair(raw) {
      DecodingsCommute(raw[2..], [], decoders);
      PairCommutes(raw, high, decoders);
    } else {
      DecodingsCommute(raw[1..], [], decoders);
      CharCommutes(raw, high, decoders);
    }
  }

  /** The code and the standard agree on a token exactly when percent-decoding makes no new `~0` or `~1` in it. */
  lemma DecodingOrderAgreesExactly(raw: string, decoders: Decoders)
    requires Lawful(decoders)
    ensures DecodeToken(raw, decoders) == StandardToken(raw, decoders)
      <==> Pairs(Unquote(raw, decoders)) == Pairs(raw)
  {
    DecodingsCommute(raw, [], decoders);
    var decoded := Unquote(raw, decoders);
    OnePassOfTildes(raw);
    OnePassOfTildes(decoded);
    UntildeShortens(decoded);
  }

  /** They differ on `%7E1`, which the code reads as the key `~1` and the standard as `/`. */
  lemma DecodingOrderDiffers(decoders: Decoders)
    ensures DecodeToken("%7E1", decoders) == "~1"
    ensures StandardToken("%7E1", decoders) == "/"
  {
    var raw := "%7E1";
    DigitsDecode(raw, '1', '/');
    DigitsDecode(raw, '0', '~');
    assert Escaped(raw) == Some(126) && raw[3..] == "1";
    assert Unquote(raw, decoders) == "~" + UnquoteAfter("1", [], decoders);
    assert UnquoteAfter("1", [], decoders) == "1";
    assert "~1"[2..] == "";
  }

  // ---------------------------------------------------------------- whole references

  /** The tokens as the code reads them: split first. */
  function CodeTokens(pointer: string, decoders: Decoders): seq<string> {
    var parts := Split(pointer, '/');
    seq(|parts|, i requires 0 <= i < |parts| => DecodeToken(parts[i], decoders))
  }

  /** RFC 6901 section 6 percent-decodes the whole fragment, and section 4 then splits it and replaces tildes. */
  function StandardTokens(pointer: string, decoders: Decoders): seq<string> {
    var parts := Split(Unquote(pointer, decoders), '/');
    seq(|parts|, i requires 0 <= i < |parts| => ReplacePair(ReplacePair(parts[i], '~', '1', '/'), '~', '0', '~'))
  }

  function UnquoteAll(parts: seq<string>, decoders: Decoders): (r: seq<string>)
    ensures |r| == |parts|
  {
    seq(|parts|, i requires 0 <= i < |parts| => Unquote(parts[i], decoders))
  }

  /** Percent-decoding keeps every slash, and where it makes no new one it decodes part by part. */
  ghost predicate SplitsAlike(raw: string, high: seq<nat>, decoders: Decoders) {
    var parts := Split(raw, '/');
    var decoded := Split(UnquoteAfter(raw, high, decoders), '/');
    && |decoded| >= |parts|
    && (|decoded| == |parts| ==> decoded == [UnquoteAfter(parts[0], high, decoders)] + UnquoteAll(parts[1..], decoders))
  }

  lemma {:induction false} SplitBehind(front: string, s: string)
    requires '/' !in front
    ensures Split(front + s, '/') == [front + Split(s, '/')[0]] + Split(s, '/')[1..]
  {
    if |front| == 0 {
      var parts := Split(s, '/');
      hide Split;
      assert front + s == s && front + parts[0] == parts[0];
      assert parts == [parts[0]] + parts[1..];
    } else {
      assert front[0] in front;
      SplitBehind(front[1..], s);
      assert (front + s)[1..] == front[1..] + s;
      assert front + Split(s, '/')[0] == [front[0]] + (front[1..] + Split(s, '/')[0]);
    }
  }

  lemma SplitAtSlash(front: string, s: string)
    requires '/' !in front
    ensures Split(front + (['/'] + s), '/') == [front] + Split(s, '/')
  {
    assert (['/'] + s)[1..] == s;
    SplitBehind(front, ['/'] + s);
    assert front + "" == front;
  }

  lemma {:induction false} FirstPart(s: string)
    ensures Split(s, '/')[0] <= s
  {
    if |s| > 0 { FirstPart(s[1..]); }
  }

  /** A character decoded from `front`, before two texts that split alike. */
  lemma SplitsAlikeBehind(raw: string, front: string, rest: string, high: seq<nat>, decoders: Decoders, c: char)
    requires Lawful(decoders) && AllHigh(high) && '/' !in front && raw == front + rest
    requires UnquoteAfter(raw, high, decoders) == Flushed(high, decoders) + ([c] + Unquote(rest, decoders))
    requires var part := Split(rest, '/')[0];
      UnquoteAfter(front + part, high, decoders) == Flushed(high, decoders) + ([c] + Unquote(part, decoders))
    requires SplitsAlike(rest, [], decoders)
    ensures SplitsAlike(raw, high, decoders)
  {
    FlushedIsNotAscii(high, decoders);
    hide Lawful, Flushed, Split, UnquoteAfter, UnquoteAll;
    var flushed, decoded, parts := Flushed(high, decoders), Unquote(rest, decoders), Split(rest, '/');
    SplitBehind(front, rest);
    assert Split(raw, '/')[0] == front + parts[0] && Split(raw, '/')[1..] == parts[1..];
    if c == '/' {
      SplitAtSlash(flushed, decoded);
    } else {
      SplitBehindChar(flushed, c, decoded);
      if |Split(decoded, '/')| == |parts| { assert Split(decoded, '/')[1..] == UnquoteAll(parts[1..], decoders); }
    }
  }

  lemma SplitBehindChar(front: string, c: char, s: string)
    requires '/' !in front && c != '/'
    ensures Split(front + ([c] + s), '/') == [front + ([c] + Split(s, '/')[0])] + Split(s, '/')[1..]
  {
    hide Split;
    SplitBehind(front + [c], s);
    var part := Split(s, '/')[0];
    assert front + ([c] + s) == front + [c] + s && front + ([c] + part) == front + [c] + part;
  }

  lemma LowEscapeSplits(raw: string, high: seq<nat>, decoders: Decoders, b: nat)
    requires Lawful(decoders) && AllHigh(high) && Escaped(raw) == Some(b) && b < 128
      && SplitsAlike(raw[3..], [], decoders)
    ensures SplitsAlike(raw, high, decoders)
  {
    hide Lawful, SplitsAlike, Split;
    var front, rest := raw[..3], raw[3..];
    EscapeUnquotes(raw, rest, high, decoders);
    EscapeUnquotes(raw, Split(rest, '/')[0], high, decoders);
    EscapeHasNoSlash(raw);
    assert raw == front + rest;
    hide UnquoteAfter, Flushed;
    SplitsAlikeBehind(raw, front, rest, high, decoders, b as char);
  }

  lemma EscapeHasNoSlash(raw: string)
    requires Escaped(raw).Some?
    ensures '/' !in raw[..3]
  {
    assert raw[..3] == [raw[0], raw[1], raw[2]];
  }

  /** An escape is decoded alike whatever follows. */
  lemma EscapeUnquotes(raw: string, s: string, high: seq<nat>, decoders: Decoders)
    requires Escaped(raw).Some?
    ensures var b := Escaped(raw).value;
      UnquoteAfter(raw[..3] + s, high, decoders)
      == if b < 128 then Flushed(high, decoders) + ([b as char] + Unquote(s, decoders))
        else UnquoteAfter(s, high + [b], decoders)
  {
    var text := raw[..3] + s;
    assert text[0] == raw[0] && text[1] == raw[1] && text[2] == raw[2] && text[3..] == s;
    assert Escaped(text) == Escaped(raw);
    hide Escaped, Flushed;
  }

  lemma HighEscapeSplits(raw: string, high: seq<nat>, decoders: Decoders, b: nat)
    requires Escaped(raw) == Some(b) && b >= 128 && SplitsAlike(raw[3..], high + [b], decoders)
    ensures SplitsAlike(raw, high, decoders)
  {
    hide Split, Escaped, UnquoteAll;
    var front, rest := raw[..3], raw[3..];
    EscapeUnquotes(raw, rest, high, decoders);
    EscapeUnquotes(raw, Split(rest, '/')[0], high, decoders);
    EscapeHasNoSlash(raw);
    assert raw == front + rest;
    hide UnquoteAfter;
    SplitBehind(front, rest);
  }

  lemma SlashSplits(raw: string, high: seq<nat>, decoders: Decoders)
    requires Lawful(decoders) && AllHigh(high) && |raw| > 0 && raw[0] == '/' && SplitsAlike(raw[1..], [], decoders)
    ensures SplitsAlike(raw, high, decoders)
  {
    FlushedIsNotAscii(high, decoders);
    hide Lawful, Flushed;
    var rest, flushed := raw[1..], Flushed(high, decoders);
    assert raw == ['/'] + rest;
    UnquoteKeepsPlain('/', rest, high, decoders);
    assert UnquoteAfter("", high, decoders) == flushed;
    hide UnquoteAfter;
    SplitAtSlash(flushed, Unquote(rest, decoders));
    SplitAtSlash("", rest);
    assert "" + raw == raw;
    var parts := Split(rest, '/');
    assert UnquoteAll(parts, decoders) == [Unquote(parts[0], decoders)] + UnquoteAll(parts[1..], decoders);
  }

  lemma CharSplits(raw: string, high: seq<nat>, decoders: Decoders)
    requires Lawful(decoders) && AllHigh(high) && |raw| > 0 && Escaped(raw).None? && raw[0] != '/'
    requires SplitsAlike(raw[1..], [], decoders)
    ensures SplitsAlike(raw, high, decoders)
  {
    var rest, c := raw[1..], raw[0];
    var part := Split(rest, '/')[0];
    FirstPart(rest);
    assert raw == [c] + rest;
    assert Escaped([c] + part).None?;
    hide Lawful, SplitsAlike, Split, Escaped, Flushed, UnquoteAfter;
    UnquoteKeeps(c, rest, high, decoders);
    UnquoteKeeps(c, part, high, decoders);
    SplitsAlikeBehind(raw, [c], rest, high, decoders, c);
  }

  lemma NothingSplits(high: seq<nat>, decoders: Decoders)
    requires Lawful(decoders) && AllHigh(high)
    ensures SplitsAlike("", high, decoders)
  {
    FlushedIsNotAscii(high, decoders);
    SplitWhole(Flushed(high, decoders));
  }

  lemma {:induction false} SplittingCommutes(raw: string, high: seq<nat>, decoders: Decoders)
    requires Lawful(decoders) && AllHigh(high)
    ensures SplitsAlike(raw, high, decoders)
    decreases |raw|
  {
    hide Lawful, SplitsAlike;
    if |raw| == 0 {
      NothingSplits(high, decoders);
    } else if Escaped(raw).Some? {
      var b := Escaped(raw).value;
      if b < 128 {
        SplittingCommutes(raw[3..], [], decoders);
        LowEscapeSplits(raw, high, decoders, b);
      } else {
        SplittingCommutes(raw[3..], high + [b], decoders);
        HighEscapeSplits(raw, high, decoders, b);
      }
    } else {
      SplittingCommutes(raw[1..], [], decoders);
      if raw[0] == '/' { SlashSplits(raw, high, decoders); } else { CharSplits(raw, high, decoders); }
    }
  }

  ghost function TotalPairs(parts: seq<string>): nat {
    if |parts| == 0 then 0 else Pairs(parts[0]) + TotalPairs(parts[1..])
  }

  /** No pair reaches over a slash. */
  lemma {:induction false} PairsOfParts(s: string)
    ensures Pairs(s) == TotalPairs(Split(s, '/'))
  {
    if |s| > 0 {
      var c, rest := s[0], s[1..];
      PairsOfParts(rest);
      assert s == [c] + rest;
      var parts := Split(rest, '/');
      FirstPart(rest);
      FirstCharacter(rest);
      PairsInFront(c, rest);
      PairsInFront(c, parts[0]);
      if c == '/' {
        assert Split(s, '/') == [""] + parts;
      } else {
        assert Split(s, '/') == [[c] + parts[0]] + parts[1..];
        assert Split(s, '/')[1..] == parts[1..];
      }
    }
  }

  lemma FirstCharacter(s: string)
    ensures var part := Split(s, '/')[0];
      if |s| == 0 || s[0] == '/' then part == "" else |part| > 0 && part[0] == s[0]
  {}

  /** Decoding makes no pair in the whole exactly when it makes none in any part. */
  lemma {:induction false} NoNewPairs(parts: seq<string>, decoders: Decoders)
    requires Lawful(decoders)
    ensures TotalPairs(UnquoteAll(parts, decoders)) >= TotalPairs(parts)
    ensures TotalPairs(UnquoteAll(parts, decoders)) == TotalPairs(parts)
      <==> forall i | 0 <= i < |parts| :: Pairs(Unquote(parts[i], decoders)) == Pairs(parts[i])
  {
    if |parts| > 0 {
      NoNewPairs(parts[1..], decoders);
      DecodingsCommute(parts[0], [], decoders);
      hide Lawful, Pairs, Unquote, UnquoteAfter;
      assert UnquoteAll(parts, decoders)[1..] == UnquoteAll(parts[1..], decoders);
      forall i | 0 < i < |parts| ensures parts[i] == parts[1..][i - 1] {}
      forall i | 0 <= i < |parts| - 1 ensures parts[1..][i] == parts[i + 1] {}
    }
  }

  /**
    The code reads a pointer as the standard does exactly when percent-decoding makes neither a new
    slash, which would split it in more parts, nor a new `~0` or `~1`.
    */
  lemma PointersReadAlikeExactly(pointer: string, decoders: Decoders)
    requires Lawful(decoders)
    ensures CodeTokens(pointer, decoders) == StandardTokens(pointer, decoders)
      <==> && |Split(Unquote(pointer, decoders), '/')| == |Split(pointer, '/')|
           && Pairs(Unquote(pointer, decoders)) == Pairs(pointer)
  {
    SplittingCommutes(pointer, [], decoders);
    var parts, decoded := Split(pointer, '/'), Unquote(pointer, decoders);
    hide Split, Pairs, Lawful, UnquoteAfter, DecodeToken, ReplacePair;
    if |Split(decoded, '/')| == |parts| {
      var all := UnquoteAll(parts, decoders);
      assert Split(decoded, '/') == all by { assert [all[0]] + UnquoteAll(parts[1..], decoders) == all; }
      PairsOfParts(pointer);
      PairsOfParts(decoded);
      NoNewPairs(parts, decoders);
      TokensAgree(pointer, decoders);
    }
  }

  lemma TokensAgree(pointer: string, decoders: Decoders)
    requires Lawful(decoders)
    requires Split(Unquote(pointer, decoders), '/') == UnquoteAll(Split(pointer, '/'), decoders)
    ensures var parts := Split(pointer, '/');
      CodeTokens(pointer, decoders) == StandardTokens(pointer, decoders)
      <==> forall i | 0 <= i < |parts| :: Pairs(Unquote(parts[i], decoders)) == Pairs(parts[i])
  {
    var parts := Split(pointer, '/');
    hide Split, Pairs, Lawful, UnquoteAfter, Unquote;
    forall i | 0 <= i < |parts|
      ensures CodeTokens(pointer, decoders)[i] == StandardTokens(pointer, decoders)[i]
        <==> Pairs(Unquote(parts[i], decoders)) == Pairs(parts[i])
    {
      DecodingOrderAgreesExactly(parts[i], decoders);
    }
  }

  // ---------------------------------------------------------------- escapes byte by byte

  function UpperHex(d: nat): char
    requires d < 16
  {
    "0123456789ABCDEF"[d]
  }

  function LowerHex(d: nat): char
    requires d < 16
  {
    "0123456789abcdef"[d]
  }

  lemma HexDigitsRead(d: nat)
    requires d < 16
    ensures HexValue(UpperHex(d)) == Some(d) && HexValue(LowerHex(d)) == Some(d)
  {
    assert d == 0 || d == 1 || d == 2 || d == 3 || d == 4 || d == 5 || d == 6 || d == 7 || d == 8 || d == 9
        || d == 10 || d == 11 || d == 12 || d == 13 || d == 14 || d == 15;
  }

  /** A byte as a percent escape, either digit in upper or lower case. */
  function PercentByte(b: nat, upperHigh: bool, upperLow: bool): string
    requires b < 256
  {
    ['%', if upperHigh then UpperHex(b / 16) else LowerHex(b / 16),
     if upperLow then UpperHex(b % 16) else LowerHex(b % 16)]
  }

  lemma PercentByteReads(b: nat, upperHigh: bool, upperLow: bool, rest: string)
    requires b < 256
    ensures Escaped(PercentByte(b, upperHigh, upperLow) + rest) == Some(b)
    ensures (PercentByte(b, upperHigh, upperLow) + rest)[3..] == rest
  {
    HexDigitsRead(b / 16);
    HexDigitsRead(b % 16);
    hide HexValue, UpperHex, LowerHex;
    var s := PercentByte(b, upperHigh, upperLow) + rest;
    assert s[0] == '%' && s[1] == PercentByte(b, upperHigh, upperLow)[1]
      && s[2] == PercentByte(b, upperHigh, upperLow)[2];
  }

  function PercentBytes(bytes: seq<nat>, upper: bool): string
    requires forall i | 0 <= i < |bytes| :: bytes[i] < 256
  {
    if |bytes| == 0 then "" else PercentByte(bytes[0], upper, upper) + PercentBytes(bytes[1..], upper)
  }

  /** An escape of an ASCII character is that character. */
  lemma AsciiEscapeReads(b: nat, upperHigh: bool, upperLow: bool, rest: string, decoders: Decoders)
    requires b < 128
    ensures Unquote(PercentByte(b, upperHigh, upperLow) + rest, decoders) == [b as char] + Unquote(rest, decoders)
  {
    PercentByteReads(b, upperHigh, upperLow, rest);
    hide Escaped, PercentByte;
  }

  /** Escapes above ASCII that follow one another are decoded together. */
  lemma {:induction false} HighEscapesRead(bytes: seq<nat>, waiting: seq<nat>, upper: bool, decoders: Decoders)
    requires forall i | 0 <= i < |bytes| :: 128 <= bytes[i] < 256
    ensures UnquoteAfter(PercentBytes(bytes, upper), waiting, decoders) == Flushed(waiting + bytes, decoders)
  {
    hide Escaped, PercentByte, Flushed;
    if |bytes| == 0 {
      assert waiting + bytes == waiting;
    } else {
      PercentByteReads(bytes[0], upper, upper, PercentBytes(bytes[1..], upper));
      HighEscapesRead(bytes[1..], waiting + [bytes[0]], upper, decoders);
      assert waiting + [bytes[0]] + bytes[1..] == waiting + bytes;
    }
  }

  /** A percent sign without two hexadecimal digits behind it stays. */
  lemma BarePercentStays(s: string, decoders: Decoders)
    requires |s| < 2 || HexValue(s[0]).None? || HexValue(s[1]).None?
    ensures Unquote("%" + s, decoders) == "%" + Unquote(s, decoders)
  {
    var t := "%" + s;
    assert t[1..] == s;
    assert |s| >= 2 ==> t[1] == s[0] && t[2] == s[1];
  }
}
