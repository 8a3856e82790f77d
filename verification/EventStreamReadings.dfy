/** Which chunks the reader takes for content, and the payloads of an event line by line. */
module EventStreamReadings {
  import opened Wrappers
  import opened JsonValues
  import opened Whitespace
  import opened EventStream
  import opened EventStreamTheorems

  // ---------------------------------------------------------------- content

  /** False in Python. */
  ghost predicate IsFalse(v: Json) { v in {Null, Bool(false), Int(0), Float(0.0), Str(""), Arr([]), Obj([])} }

  /** `choice["delta"]["content"]` is there and not false. */
  ghost predicate Carries(choice: Json) {
    match choice
    case Obj(members) =>
      (match Get(members, "delta")
       case Some(Obj(delta)) => (match Get(delta, "content") case Some(v) => !IsFalse(v) case None => false)
       case _ => false)
    case _ => false
  }

  /** The choice is no dictionary, or its delta is neither a dictionary nor false. */
  ghost predicate Breaks(choice: Json) {
    match choice
    case Obj(members) =>
      (match Get(members, "delta")
       case Some(delta) => !delta.Obj? && !IsFalse(delta)
       case None => false)
    case _ => true
  }

  lemma ChoiceMeans(choice: Json)
    ensures ChoiceHasContent(choice) == Some(true) <==> Carries(choice)
    ensures ChoiceHasContent(choice) == None <==> Breaks(choice)
  {}

  /** The choice `i` carries content and none before it breaks. */
  ghost predicate CarriesAt(choices: seq<Json>, i: nat) {
    i < |choices| && Carries(choices[i]) && forall j | 0 <= j < i :: !Breaks(choices[j])
  }

  /** The choice `i` breaks and none before it carries content. */
  ghost predicate BreaksAt(choices: seq<Json>, i: nat) {
    i < |choices| && Breaks(choices[i]) && forall j | 0 <= j < i :: !Carries(choices[j])
  }

  lemma {:induction false} ChoicesMean(choices: seq<Json>)
    ensures AnyHasContent(choices) == Some(true) <==> exists i: nat :: CarriesAt(choices, i)
    ensures AnyHasContent(choices) == None <==> exists i: nat :: BreaksAt(choices, i)
  {
    hide Carries, Breaks, ChoiceHasContent;
    if choices != [] {
      ChoiceMeans(choices[0]);
      ChoicesMean(choices[1..]);
      var rest := choices[1..];
      assert Carries(choices[0]) ==> CarriesAt(choices, 0);
      assert Breaks(choices[0]) ==> BreaksAt(choices, 0);
      if !Carries(choices[0]) && !Breaks(choices[0]) {
        if i: nat :| CarriesAt(rest, i) { assert CarriesAt(choices, i + 1); }
        if i: nat :| BreaksAt(rest, i) { assert BreaksAt(choices, i + 1); }
        if i: nat :| CarriesAt(choices, i) {
          assert i > 0 && forall j | 0 <= j < i - 1 :: rest[j] == choices[j + 1];
          assert CarriesAt(rest, i - 1);
        }
        if i: nat :| BreaksAt(choices, i) {
          assert i > 0 && forall j | 0 <= j < i - 1 :: rest[j] == choices[j + 1];
          assert BreaksAt(rest, i - 1);
        }
      }
    }
  }

  ghost predicate ChunkCarries(chunk: Json) {
    chunk.Obj? &&
      match Get(chunk.members, "choices")
      case Some(Arr(choices)) => (exists i: nat :: CarriesAt(choices, i))
      case _ => false
  }

  ghost predicate ChunkBreaks(chunk: Json) {
    chunk.Obj? ==>
      match Get(chunk.members, "choices")
      case Some(Arr(choices)) => (exists i: nat :: BreaksAt(choices, i))
      case Some(v) => v != Str("") && v != Obj([])
      case None => false
  }

  /**
    A chunk has content exactly when some choice of its list carries it before any breaks. The check
    raises on a chunk that is no dictionary, on choices that are neither a list nor an empty text or
    dictionary, and on a list in which a choice breaks before any carries.
    */
  lemma ContentExactly(chunk: Json)
    ensures HasContent(chunk) == Some(true) <==> ChunkCarries(chunk)
    ensures HasContent(chunk) == None <==> ChunkBreaks(chunk)
  {
    hide AnyHasContent, CarriesAt, BreaksAt;
    if chunk.Obj? && Get(chunk.members, "choices").Some? && Get(chunk.members, "choices").value.Arr? {
      ChoicesMean(Get(chunk.members, "choices").value.items);
    }
  }

  // ---------------------------------------------------------------- lines

  /** The separators of `str.splitlines`: a single character, or a carriage return and newline. */
  predicate IsSeparator(separator: string, rest: string) {
    || separator == "\r\n"
    || (separator == "\r" && !("\n" <= rest))
    || separator in {"\n", "\U{0B}", "\U{0C}", "\U{1C}", "\U{1D}", "\U{1E}", "\U{85}", "\U{2028}", "\U{2029}"}
  }

  predicate IsOneLine(line: string) {
    forall c | c in line ::
      c !in {'\n', '\r', '\U{0B}', '\U{0C}', '\U{1C}', '\U{1D}', '\U{1E}', '\U{85}', '\U{2028}', '\U{2029}'}
  }

  lemma OneLineHasNoEnd(line: string)
    requires IsOneLine(line)
    ensures LineLength(line) == |line| && forall c | c in line :: !IsLineEnd(c)
  {
    forall c | c in line ensures !IsLineEnd(c) {
      var n := c as int;
      assert c == n as char;
      EndsAre(c);
    }
    NoLineEnd(line);
  }

  lemma EndsAre(c: char)
    ensures IsLineEnd(c)
      <==> c in {'\n', '\r', '\U{0B}', '\U{0C}', '\U{1C}', '\U{1D}', '\U{1E}', '\U{85}', '\U{2028}', '\U{2029}'}
  {
    var n := c as int;
    if IsLineEnd(c) { assert n in {10, 13, 11, 12, 28, 29, 30, 133, 8232, 8233}; }
  }

  lemma SeparatorEnds(separator: string, rest: string)
    requires IsSeparator(separator, rest)
    ensures var s := separator + rest;
      |s| > 0 && IsLineEnd(s[0])
      && s[if s[0] == '\r' && 1 < |s| && s[1] == '\n' then 2 else 1..] == rest
  {
    var s := separator + rest;
    assert s[0] == separator[0];
    EndsAre(separator[0]);
    if separator == "\r\n" {
      assert s[1] == '\n' && s[2..] == rest;
    } else {
      assert |separator| == 1;
      assert s[1..] == rest;
      assert |rest| > 0 ==> s[1] == rest[0] && ("\n" <= rest <==> rest[0] == '\n');
      assert separator[0] == '\r' ==> separator == "\r";
    }
  }

  /** A line, what ends it, and the lines behind it. */
  lemma LinesSplit(line: string, separator: string, rest: string)
    requires IsOneLine(line) && IsSeparator(separator, rest)
    ensures Lines(line + separator + rest) == [line] + Lines(rest)
  {
    OneLineHasNoEnd(line);
    SeparatorEnds(separator, rest);
    hide IsSeparator, IsLineEnd;
    var text, tail := line + separator + rest, separator + rest;
    assert text == line + tail;
    FirstLine(line, tail);
    assert text[..|line|] == line && text[|line|] == tail[0];
    assert forall k | 0 <= k <= |tail| :: text[|line| + k..] == tail[k..];
    assert |line| + 1 < |text| ==> text[|line| + 1] == tail[1];
  }

  lemma {:induction false} FirstLine(line: string, tail: string)
    requires (forall c | c in line :: !IsLineEnd(c)) && |tail| > 0 && IsLineEnd(tail[0])
    ensures LineLength(line + tail) == |line|
  {
    hide IsLineEnd;
    if line == "" {
      assert line + tail == tail;
    } else {
      assert line[0] in line;
      FirstLine(line[1..], tail);
      assert (line + tail)[1..] == line[1..] + tail;
    }
  }

  lemma LastLine(line: string)
    requires IsOneLine(line)
    ensures Lines(line) == if line == "" then [] else [line]
  {
    OneLineHasNoEnd(line);
    assert line[..|line|] == line;
  }

  // ---------------------------------------------------------------- events of several lines

  /** The data of the lines that have some, each without the whitespace around it. */
  ghost function DataOf(lines: seq<string>): seq<string> {
    if |lines| == 0 then []
    else (if "data:" <= lines[0] then [Strip(lines[0][5..])] else []) + DataOf(lines[1..])
  }

  lemma {:induction false} DataOfSnoc(lines: seq<string>, last: string)
    ensures DataOf(lines + [last]) == DataOf(lines) + DataOf([last])
  {
    var all := lines + [last];
    if |lines| == 0 {
      assert all == [last] && DataOf(lines) == [];
    } else {
      assert all[0] == lines[0] && all[1..] == lines[1..] + [last];
      DataOfSnoc(lines[1..], last);
    }
  }

  lemma DataOfOne(line: string)
    ensures DataOf([line]) == if Payload(line).Some? then [Payload(line).value] else []
  {
    assert DataOf([line][1..]) == [];
    assert |DATA_FIELD| == 5;
  }

  lemma {:induction false} PayloadsAreData(lines: seq<string>)
    ensures PayloadsOfLines(lines) == DataOf(lines)
  {
    hide Payload, DataOf;
    if |lines| > 0 {
      var front, last := lines[..|lines| - 1], lines[|lines| - 1];
      PayloadsAreData(front);
      DataOfSnoc(front, last);
      DataOfOne(last);
      assert lines == front + [last];
    } else {
      NoData();
      assert lines == [];
    }
  }

  lemma NoData()
    ensures DataOf([]) == []
  {}

  function Joined(lines: seq<string>): string {
    if |lines| == 0 then "" else if |lines| == 1 then lines[0] else lines[0] + "\n" + Joined(lines[1..])
  }

  predicate AreLines(lines: seq<string>) { forall i | 0 <= i < |lines| :: lines[i] != "" && IsOneLine(lines[i]) }

  /** No blank line, at the ends or inside. */
  predicate NoBlankLine(s: string) {
    && s != "" && s[0] != '\n' && s[|s| - 1] != '\n'
    && forall i | 0 <= i < |s| - 1 :: !(s[i] == '\n' && s[i + 1] == '\n')
  }

  lemma {:induction false} JoinedLines(lines: seq<string>)
    requires |lines| > 0 && AreLines(lines)
    ensures Lines(Joined(lines)) == lines && NoBlankLine(Joined(lines))
  {
    var line := lines[0];
    OneLineHasNoBlank(line);
    if |lines| == 1 {
      LastLine(line);
    } else {
      hide Lines, IsOneLine, NoBlankLine;
      assert AreLines(lines[1..]);
      JoinedLines(lines[1..]);
      var rest := Joined(lines[1..]);
      LinesSplit(line, "\n", rest);
      NoBlankBetween(line, rest);
      assert lines == [line] + lines[1..];
    }
  }

  lemma OneLineHasNoBlank(line: string)
    requires line != "" && IsOneLine(line)
    ensures NoBlankLine(line)
  {
    assert line[0] in line && line[|line| - 1] in line && forall i | 0 <= i < |line| :: line[i] in line;
  }

  lemma NoBlankBetween(line: string, rest: string)
    requires NoBlankLine(line) && NoBlankLine(rest)
    ensures NoBlankLine(line + "\n" + rest)
  {
    var s := line + "\n" + rest;
    assert s[|line|] == '\n' && s[|line| + 1] == rest[0] && s[|s| - 1] == rest[|rest| - 1];
    forall i | 0 <= i < |s| - 1 ensures !(s[i] == '\n' && s[i + 1] == '\n') {
      if i > |line| { assert s[i] == rest[i - |line| - 1] && s[i + 1] == rest[i - |line|]; }
    }
  }

  lemma FoundAtTheEnd(event: string)
    requires NoBlankLine(event)
    ensures Find(event + "\n\n") == Some(|event|)
  {
    var text := event + "\n\n";
    assert text[|event|] == '\n' && text[|event| + 1] == '\n';
    assert forall i | 0 <= i < |event| :: text[i] == event[i];
  }

  lemma NothingBehind(text: string, k: nat)
    requires Find(text) == Some(k) && k + 2 == |text|
    ensures Payloads(text) == PayloadsOfLines(Lines(text[..k]))
  {
    assert text[k + 2..] == "" && Find("") == None;
    hide Find, Lines, PayloadsOfLines;
    assert Payloads("") == [];
  }

  /** An event of several lines has the data of its data lines, in order. */
  lemma EventOfLines(lines: seq<string>)
    requires |lines| > 0 && AreLines(lines)
    ensures Payloads(Joined(lines) + "\n\n") == DataOf(lines)
  {
    var event := Joined(lines);
    JoinedLines(lines);
    PayloadsAreData(lines);
    hide Joined, Lines, DataOf, Find, NoBlankLine, Payloads, PayloadsOfLines;
    FoundAtTheEnd(event);
    NothingBehind(event + "\n\n", |event|);
    assert (event + "\n\n")[..|event|] == event;
  }

  /** The event `data: [DONE]` ends the reading. */
  lemma DoneEnds(reader: Reader)
    ensures Run(reader, ["data: [DONE]\n\n"], 1).sawDone
  {
    DoneLine();
    OneEvent("data: [DONE]", "[DONE]");
    var pieces := ["data: [DONE]" + "\n\n"];
    assert pieces[0] == "data: [DONE]\n\n";
    DonePieces(reader, pieces);
  }

  lemma DonePieces(reader: Reader, pieces: seq<string>)
    requires |pieces| == 1 && Payloads(pieces[0]) == ["[DONE]"]
    ensures Run(reader, pieces, 1).sawDone
  {
    OnePiece(pieces);
    hide Run, Payloads, EventStreamTheorems.Joined, Consistent;
    ReaderReturnsThePayloads(reader, pieces);
    assert !RaisesAt(reader, ["[DONE]"], 0);
  }

  lemma OnePiece(pieces: seq<string>)
    requires |pieces| == 1
    ensures EventStreamTheorems.Joined(pieces, 1) == pieces[0]
  {
    assert EventStreamTheorems.Joined(pieces, 0) == "";
  }

  lemma OneSpaceIsStripped(word: string)
    requires word != "" && !IsSpace(word[0]) && !IsSpace(word[|word| - 1])
    ensures Strip(" " + word) == word
  {
    var s := " " + word;
    assert s[1..] == word && Spaces(word) == "";
    assert Spaces(s) == " " && AfterSpaces(s) == word;
  }

  lemma DoneLine()
    ensures Payload("data: [DONE]") == Some("[DONE]") && forall c | c in "data: [DONE]" :: !IsLineEnd(c)
  {
    OneSpaceIsStripped("[DONE]");
    hide Strip;
    assert "data: [DONE]"[|DATA_FIELD|..] == " " + "[DONE]";
  }
}
