/** Which texts inside JSON values show in their compact JSON text. */
module ToolCallMarkers {
  import opened JsonValues
  import opened Numerals
  import opened GemmaGrammar
  import opened JsonText
  import opened ToolCalls

  predicate IsPlain(c: char) { 0x20 <= c as int <= 0x7E && c != '"' && c != '\\' }

  /** Text that JSON writes as it is, and that starts with a character no number or word of JSON has. */
  ghost predicate IsMark(mark: string) { |mark| > 0 && mark[0] == '<' && forall c | c in mark :: IsPlain(c) }

  /** ... and that cannot reach from one string of a value into another. */
  ghost predicate StaysInside(mark: string) { forall c | c in mark :: c !in "\"[]{},:" }

  // ---------------------------------------------------------------- occurrences

  lemma OccurrenceIsMark(text: string, mark: string, i: nat, k: nat)
    requires OccursAt(text, mark, i)
    ensures i <= k < i + |mark| ==> text[k] in mark
  {
    if i <= k < i + |mark| { assert text[k] == text[i..i + |mark|][k - i]; }
  }

  /** An occurrence does not reach over a character the mark does not have. */
  lemma OccursOnOneSide(a: string, c: char, b: string, mark: string)
    requires c !in mark && |mark| > 0
    ensures Contains(a + ([c] + b), mark) ==> Contains(a, mark) || Contains(b, mark)
  {
    var text := a + ([c] + b);
    if i: nat :| i <= |text| && OccursAt(text, mark, i) {
      assert text[|a|] == c;
      assert !(i <= |a| < i + |mark|) by { OccurrenceIsMark(text, mark, i, |a|); }
      if i + |mark| <= |a| {
        assert text[i..i + |mark|] == a[i..i + |mark|];
        assert OccursAt(a, mark, i);
      } else {
        var j := i - |a| - 1;
        assert text[i..i + |mark|] == b[j..j + |mark|];
        assert OccursAt(b, mark, j);
      }
    }
  }

  lemma ContainsBehind(front: string, s: string, mark: string)
    requires Contains(s, mark)
    ensures Contains(front + s, mark)
  {
    var i: nat :| i <= |s| && OccursAt(s, mark, i);
    assert (front + s)[|front| + i..|front| + i + |mark|] == s[i..i + |mark|];
    assert OccursAt(front + s, mark, |front| + i);
  }

  lemma ContainsBefore(s: string, back: string, mark: string)
    requires Contains(s, mark)
    ensures Contains(s + back, mark)
  {
    var i: nat :| i <= |s| && OccursAt(s, mark, i);
    assert (s + back)[i..i + |mark|] == s[i..i + |mark|];
    assert OccursAt(s + back, mark, i);
  }

  /** An occurrence starts at the mark's first character. */
  lemma StartsLater(front: string, s: string, mark: string)
    requires |mark| > 0 && mark[0] !in front
    ensures Contains(front + s, mark) <==> Contains(s, mark)
  {
    if Contains(s, mark) { ContainsBehind(front, s, mark); }
    var text := front + s;
    if i: nat :| i <= |text| && OccursAt(text, mark, i) {
      assert text[i] == text[i..i + |mark|][0];
      assert forall k | 0 <= k < |front| :: text[k] in front;
      assert text[i..i + |mark|] == s[i - |front|..i - |front| + |mark|];
      assert OccursAt(s, mark, i - |front|);
    }
  }

  lemma HereOrLater(s: string, mark: string)
    requires |s| > 0 && |mark| > 0
    ensures Contains(s, mark) <==> mark <= s || Contains(s[1..], mark)
  {
    if mark <= s { assert OccursAt(s, mark, 0); }
    if Contains(s[1..], mark) {
      assert s == [s[0]] + s[1..];
      ContainsBehind([s[0]], s[1..], mark);
    }
    if i: nat :| i <= |s| && OccursAt(s, mark, i) {
      if i > 0 {
        assert s[1..][i - 1..i - 1 + |mark|] == s[i..i + |mark|];
        assert OccursAt(s[1..], mark, i - 1);
      }
    }
  }

  // ---------------------------------------------------------------- escaped text

  lemma EscapeOf(c: char)
    ensures IsPlain(c) ==> EscapedChar(c) == [c]
    ensures !IsPlain(c) ==> |EscapedChar(c)| > 0 && EscapedChar(c)[0] == '\\' && '<' !in EscapedChar(c)
  {
    assert forall d: nat :: d < 16 ==> HexDigit(d) != '<';
  }

  lemma {:induction false} PrefixEscaped(s: string, mark: string)
    requires forall c | c in mark :: IsPlain(c)
    ensures mark <= EscapedText(s) <==> mark <= s
  {
    hide EscapedChar;
    if |mark| > 0 && |s| > 0 {
      EscapeOf(s[0]);
      PrefixEscaped(s[1..], mark[1..]);
      assert mark[0] in mark;
      var e := EscapedText(s);
      if IsPlain(s[0]) {
        assert e[1..] == EscapedText(s[1..]);
        assert mark <= e <==> mark[0] == e[0] && mark[1..] <= e[1..];
        assert mark <= s <==> mark[0] == s[0] && mark[1..] <= s[1..];
      } else {
        assert e[0] == '\\' && mark[0] != s[0];
      }
    }
  }

  lemma {:induction false} EscapedContains(s: string, mark: string)
    requires IsMark(mark)
    ensures Contains(EscapedText(s), mark) <==> Contains(s, mark)
  {
    hide EscapedChar, Contains;
    if |s| == 0 {
      assert !Contains("", mark) by { NothingContains(mark); }
    } else {
      EscapeOf(s[0]);
      EscapedContains(s[1..], mark);
      HereOrLater(s, mark);
      assert IsPlain(mark[0]) by { assert mark[0] in mark; }
      if IsPlain(s[0]) {
        PrefixEscaped(s, mark);
        HereOrLater(EscapedText(s), mark);
        assert EscapedText(s)[1..] == EscapedText(s[1..]);
      } else {
        StartsLater(EscapedChar(s[0]), EscapedText(s[1..]), mark);
      }
    }
  }

  lemma NothingContains(mark: string)
    requires |mark| > 0
    ensures !Contains("", mark)
  {}

  // ---------------------------------------------------------------- values

  /** A string or key of the value holds the mark. */
  ghost predicate HasMark(v: Json, mark: string)
    decreases v
  {
    match v
    case Str(s) => Contains(s, mark)
    case Arr(items) => exists i | 0 <= i < |items| :: HasMark(items[i], mark)
    case Obj(members) =>
      exists i | 0 <= i < |members| :: Contains(members[i].key, mark) || HasMark(members[i].value, mark)
    case _ => false
  }

  ghost predicate ItemsMarked(items: seq<Json>, mark: string) { exists i | 0 <= i < |items| :: HasMark(items[i], mark) }

  ghost predicate MembersMarked(members: Members, mark: string) {
    exists i | 0 <= i < |members| :: Contains(members[i].key, mark) || HasMark(members[i].value, mark)
  }

  lemma ItemsUnfold(items: seq<Json>, mark: string)
    requires |items| > 0
    ensures ItemsMarked(items, mark) <==> HasMark(items[0], mark) || ItemsMarked(items[1..], mark)
  {
    hide HasMark;
    if i :| 0 < i < |items| && HasMark(items[i], mark) { assert HasMark(items[1..][i - 1], mark); }
    if i :| 0 <= i < |items| - 1 && HasMark(items[1..][i], mark) { assert HasMark(items[i + 1], mark); }
  }

  lemma MembersUnfold(members: Members, mark: string)
    requires |members| > 0
    ensures MembersMarked(members, mark)
      <==> Contains(members[0].key, mark) || HasMark(members[0].value, mark) || MembersMarked(members[1..], mark)
  {
    hide HasMark, Contains;
    ghost var rest := members[1..];
    if i :| 0 < i < |members| && (Contains(members[i].key, mark) || HasMark(members[i].value, mark)) {
      assert rest[i - 1] == members[i];
    }
    if i :| 0 <= i < |rest| && (Contains(rest[i].key, mark) || HasMark(rest[i].value, mark)) {
      assert rest[i] == members[i + 1];
    }
  }

  /** Numbers and words have no `<`. */
  ghost predicate PlainFloats(floats: real -> string) { forall x :: '<' !in floats(x) }

  lemma ScalarHasNoMark(v: Json, floats: real -> string, mark: string)
    requires PlainFloats(floats) && IsMark(mark) && !v.Str? && !v.Arr? && !v.Obj?
    ensures !Contains(Dumps(v, floats), mark)
  {
    var text := Dumps(v, floats);
    assert '<' !in text by {
      if v.Int? {
        var n := if v.i < 0 then -v.i else v.i;
        assert AllDigits(Numeral(n));
      }
    }
    hide Dumps;
    StartsLater(text, "", mark);
    NothingContains(mark);
    assert text + "" == text;
  }

  lemma StringContains(s: string, mark: string)
    requires IsMark(mark)
    ensures Contains(s, mark) ==> Contains(StringText(s), mark)
    ensures Contains(StringText(s), mark) && StaysInside(mark) ==> Contains(s, mark)
  {
    hide Contains;
    EscapedContains(s, mark);
    Enclosed("\"", EscapedText(s), '"', mark);
    assert "\"" + EscapedText(s) + ['"'] == StringText(s);
  }

  /** Between two characters that are not the mark's. */
  lemma Enclosed(open: string, s: string, close: char, mark: string)
    requires |mark| > 0 && mark[0] !in open
    ensures Contains(s, mark) ==> Contains(open + s + [close], mark)
    ensures close !in mark && Contains(open + s + [close], mark) ==> Contains(s, mark)
  {
    StartsLater(open, s + [close], mark);
    assert open + s + [close] == open + (s + [close]);
    if Contains(s, mark) { ContainsBefore(s, [close], mark); }
    if close !in mark {
      OccursOnOneSide(s, close, "", mark);
      assert s + ([close] + "") == s + [close];
      NothingContains(mark);
    }
  }

  lemma Separated(a: string, c: char, b: string, mark: string)
    requires |mark| > 0
    ensures Contains(a, mark) || Contains(b, mark) ==> Contains(a + ([c] + b), mark)
    ensures c !in mark && Contains(a + ([c] + b), mark) ==> Contains(a, mark) || Contains(b, mark)
  {
    if Contains(a, mark) { ContainsBefore(a, [c] + b, mark); }
    if Contains(b, mark) {
      ContainsBehind(a + [c], b, mark);
      assert a + [c] + b == a + ([c] + b);
    }
    if c !in mark { OccursOnOneSide(a, c, b, mark); }
  }

  /** `shown` if and only if `held`, the latter way only if the mark has no punctuation of JSON. */
  ghost predicate Shows(held: bool, shown: bool, mark: string) {
    (held ==> shown) && (shown && StaysInside(mark) ==> held)
  }

  /** The JSON text holds a mark exactly when one of the value's strings or keys does. */
  lemma {:induction false} DumpsShows(v: Json, floats: real -> string, mark: string)
    requires PlainFloats(floats) && IsMark(mark)
    ensures Shows(HasMark(v, mark), Contains(Dumps(v, floats), mark), mark)
    decreases v, 0
  {
    hide Contains, EscapedText;
    match v
    case Str(s) => StringContains(s, mark);
    case Arr(items) =>
      ItemsShow(items, floats, mark);
      hide ItemsText;
      Enclosed("[", ItemsText(items, floats), ']', mark);
      assert HasMark(v, mark) <==> ItemsMarked(items, mark);
    case Obj(members) =>
      MembersShow(members, floats, mark);
      hide MembersText;
      Enclosed("{", MembersText(members, floats), '}', mark);
      assert HasMark(v, mark) <==> MembersMarked(members, mark);
    case _ => ScalarHasNoMark(v, floats, mark);
  }

  lemma {:induction false} ItemsShow(items: seq<Json>, floats: real -> string, mark: string)
    requires PlainFloats(floats) && IsMark(mark)
    ensures Shows(ItemsMarked(items, mark), Contains(ItemsText(items, floats), mark), mark)
    decreases items, 1
  {
    hide Contains, HasMark, PlainFloats;
    NothingContains(mark);
    if |items| > 0 {
      DumpsShows(items[0], floats, mark);
      ItemsShow(items[1..], floats, mark);
      hide Dumps, ItemsMarked;
      ItemsUnfold(items, mark);
      var first := Dumps(items[0], floats);
      if |items| == 1 {
        assert first + "" == first;
        assert ItemsText(items[1..], floats) == "";
      } else {
        Separated(first, ',', ItemsText(items[1..], floats), mark);
      }
    }
  }

  lemma {:induction false} MembersShow(members: Members, floats: real -> string, mark: string)
    requires PlainFloats(floats) && IsMark(mark)
    ensures Shows(MembersMarked(members, mark), Contains(MembersText(members, floats), mark), mark)
    decreases members, 1
  {
    hide Contains, HasMark, PlainFloats;
    NothingContains(mark);
    if |members| > 0 {
      StringContains(members[0].key, mark);
      DumpsShows(members[0].value, floats, mark);
      MembersShow(members[1..], floats, mark);
      hide Dumps, StringText, MembersMarked;
      MembersUnfold(members, mark);
      var key, value := StringText(members[0].key), Dumps(members[0].value, floats);
      Separated(key, ':', value, mark);
      var first := key + (":" + value);
      if |members| == 1 {
        assert first + "" == first;
        assert MembersText(members[1..], floats) == "";
      } else {
        Separated(first, ',', MembersText(members[1..], floats), mark);
      }
    }
  }
}
