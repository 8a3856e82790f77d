/** Rendering prior tool calls and parsing the text back. */
module ToolCallRoundTrip {
  import opened Wrappers
  import opened Whitespace
  import opened JsonValues
  import opened JsonText
  import opened ToolCallContract
  import opened ToolCalls
  import opened ToolCallMarkers
  import opened Numerals

  /** Distinct keys in every dictionary and floats that `repr` writes exactly, as every decoded value has. */
  ghost predicate WellFormed(v: Json, codec: Codec)
    decreases v
  {
    match v
    case Arr(items) => forall i | 0 <= i < |items| :: WellFormed(items[i], codec)
    case Obj(members) => DistinctKeys(members) && forall i | 0 <= i < |members| :: WellFormed(members[i].value, codec)
    case Float(x) => codec.loads(codec.floats(x)) == Some(v)
    case _ => true
  }

  /** What the model needs to know of the JSON module. */
  ghost predicate CodecLaw(codec: Codec) {
    && (forall x :: Printing(codec.floats(x))) && PlainFloats(codec.floats)
    && (forall v :: WellFormed(v, codec) ==> codec.loads(Dumps(v, codec.floats)) == Some(v))
  }

  /** A prior call that was valid when it was made: id, declared name and schema-valid object arguments. */
  ghost predicate Replayable(call: Members, id: string, name: string, arguments: Members, c: Context) {
    && id != "" && Get(call, "id") == Some(Str(id))
    && FunctionOf(call).Some?
    && Get(FunctionOf(call).value, "name") == Some(Str(name))
    && (var given := Get(FunctionOf(call).value, "arguments");
        DecodedArguments(if given.Some? then given.value else Str("{}"), c.codec) == Obj(arguments))
    && WellFormed(Obj(arguments), c.codec)
    && Strip(name) != "" && FindTool(c.tools, name).Some?
    && SchemaAccepts(FindTool(c.tools, name).value, arguments, c.library)
  }

  function Entry3(id: string, name: string, arguments: Members): Members {
    [Member("id", Str(id)), Member(TOOL_CALL_NAME_KEY, Str(name)), Member(ARGUMENT_KEYS[0], Obj(arguments))]
  }

  /** What is written for the calls, before encoding. */
  function Payload(entries: seq<Json>): Json { Obj([Member(TOOL_CALL_BATCH_KEY, Arr(entries))]) }

  lemma EntryLooksUp(id: string, name: string, arguments: Members)
    ensures var e := Entry3(id, name, arguments);
      && Get(e, "id") == Some(Str(id)) && Get(e, TOOL_CALL_NAME_KEY) == Some(Str(name))
      && TOOL_CALL_NAME_KEY in Keys(e) && Lookup(e, TOOL_CALL_NAME_KEY) == Str(name)
      && ArgumentsOf(e) == Obj(arguments) && DistinctKeys(e)
  {
    var e := Entry3(id, name, arguments);
    assert e[0].key == "id" && e[1].key == "name" && e[2].key == "arguments";
    assert DistinctKeys(e);
    LookupAt(e, 0);
    LookupAt(e, 1);
    LookupAt(e, 2);
  }

  lemma EntryWellFormed(id: string, name: string, arguments: Members, codec: Codec)
    requires WellFormed(Obj(arguments), codec)
    ensures WellFormed(Obj(Entry3(id, name, arguments)), codec)
  {
    EntryLooksUp(id, name, arguments);
    hide DistinctKeys;
    var e := Entry3(id, name, arguments);
    assert forall i | 0 <= i < |e| :: WellFormed(e[i].value, codec);
  }

  lemma RenderedEntry(call: Members, id: string, name: string, arguments: Members, c: Context)
    requires Replayable(call, id, name, arguments, c)
    ensures RenderedCall(call, c.codec) == Some(Obj(Entry3(id, name, arguments)))
  {
    hide SchemaAccepts, Strip, WellFormed, Get;
  }

  lemma EntryHasNoFault(id: string, name: string, arguments: Members, c: Context, number: nat)
    requires id != "" && Strip(name) != "" && FindTool(c.tools, name).Some?
    requires SchemaAccepts(FindTool(c.tools, name).value, arguments, c.library)
    ensures Fault(Entry3(id, name, arguments), c).None?
    ensures CallOf(Entry3(id, name, arguments), c, number) == ParsedCall(id, name, arguments)
  {
    hide SchemaAccepts, Strip, ArgumentsOf, FindTool;
    EntryLooksUp(id, name, arguments);
  }

  // ---------------------------------------------------------------- the text is found whole

  lemma {:induction false} PlainText(s: string)
    requires forall i | 0 <= i < |s| :: 0x20 <= s[i] as int <= 0x7E && s[i] != '"' && s[i] != '\\'
    ensures EscapedText(s) == s
  {
    if |s| > 0 {
      PlainText(s[1..]);
      assert s == [s[0]] + s[1..];
    }
  }

  lemma OneMemberText(key: string, v: Json, floats: real -> string)
    requires EscapedText(key) == key
    ensures Dumps(Obj([Member(key, v)]), floats) == "{" + ("\"" + key + "\"") + (":" + Dumps(v, floats)) + "}"
  {
    hide EscapedText;
    var m, inner := Member(key, v), ":" + Dumps(v, floats);
    assert MembersText([m], floats) == StringText(key) + inner + "";
    Braced(StringText(key), inner);
  }

  lemma PayloadText(entries: seq<Json>, floats: real -> string) returns (inner: string)
    ensures Dumps(Payload(entries), floats) == "{" + ("\"" + TOOL_CALL_BATCH_KEY + "\"") + inner + "}"
  {
    hide EscapedText, Dumps;
    PlainText(TOOL_CALL_BATCH_KEY);
    OneMemberText(TOOL_CALL_BATCH_KEY, Arr(entries), floats);
    inner := ":" + Dumps(Arr(entries), floats);
  }

  lemma Braced(key: string, inner: string)
    ensures "{" + (key + inner + "") + "}" == "{" + key + inner + "}"
  {}

  lemma BracedTextIsACandidate(text: string, marker: string, inner: string)
    requires marker == "\"" + TOOL_CALL_BATCH_KEY + "\"" && text == "{" + marker + inner + "}"
    ensures Strip(text) == text && LooksLikeToolCall(text)
  {
    assert text[1..1 + |marker|] == marker;
    assert OccursAt(text, marker, 1);
    assert Contains(text, marker);
    assert text[0] == '{' && text[|text| - 1] == '}';
    assert AfterSpaces(text) == text;
  }

  lemma PrintingHasNoNewline(text: string)
    requires Printing(text)
    ensures '\n' !in text
  {}

  lemma {:induction false} NothingTaken(fences: seq<Fence>)
    requires fences == []
    ensures TakenFences(fences, |fences|) == []
  {}

  lemma WholeTextIsJson(text: string, matcher: Matcher)
    requires Lawful(matcher) && matcher.fences(text) == []
    requires Strip(text) == text && LooksLikeToolCall(text)
    ensures JsonCandidates(text, matcher) == ([text], "")
  {
    hide Lawful, Strip, LooksLikeToolCall;
    NothingTaken(matcher.fences(text));
  }

  /** With no Gemma span, the candidates are those of the JSON half. */
  lemma NoNativeCandidates(text: string, c: Context)
    requires Lawful(c.matcher) && c.matcher.natives(text) == []
    requires JsonCandidates(text, c.matcher) == ([text], "")
    ensures AllCandidates(text, c) == DecodeCandidates([text], c.codec, 1)
    ensures RemainingText(text, c) == ""
  {
    hide Lawful, JsonCandidates, DecodeCandidates, Removed;
    NoNatives();
    NothingRemoved(text);
    var decoded := DecodeCandidates([text], c.codec, 1);
    assert NativeCandidates([], 0) + decoded == decoded;
  }

  /** With no fence and no Gemma span, the whole text is the one candidate. */
  lemma WholeTextIsTheCandidate(text: string, c: Context)
    requires Lawful(c.matcher) && Printing(text) && c.matcher.natives(text) == []
    requires Strip(text) == text && LooksLikeToolCall(text)
    ensures AllCandidates(text, c) == DecodeCandidates([text], c.codec, 1)
    ensures RemainingText(text, c) == ""
  {
    hide Lawful, Strip, LooksLikeToolCall, Printing, JsonCandidates, DecodeCandidates, AllCandidates, RemainingText;
    PrintingHasNoNewline(text);
    LawfulSpans(c.matcher, text);
    WholeTextIsJson(text, c.matcher);
    NoNativeCandidates(text, c);
  }

  lemma NothingRemoved(text: string)
    ensures Ordered([], |text|) && Removed(text, []) == text
  {
    assert "" + text[0..] == text;
  }

  // ---------------------------------------------------------------- the round trip

  /** A prior call with the parts it is made of. */
  datatype Prior = Prior(call: Members, id: string, name: string, arguments: Members)

  ghost predicate AllReplayable(priors: seq<Prior>, c: Context) {
    forall i | 0 <= i < |priors| :: Replayable(priors[i].call, priors[i].id, priors[i].name, priors[i].arguments, c)
  }

  function CallsOf(priors: seq<Prior>): seq<Members> {
    seq(|priors|, i requires 0 <= i < |priors| => priors[i].call)
  }

  function PayloadOf(prior: Prior): Members { Entry3(prior.id, prior.name, prior.arguments) }

  function PayloadsOf(priors: seq<Prior>): seq<Members> {
    seq(|priors|, i requires 0 <= i < |priors| => PayloadOf(priors[i]))
  }

  function Wrapped(payloads: seq<Members>): seq<Json> {
    seq(|payloads|, i requires 0 <= i < |payloads| => Obj(payloads[i]))
  }

  function ResultsOf(priors: seq<Prior>): seq<ParsedCall> {
    seq(|priors|, i requires 0 <= i < |priors| => ParsedCall(priors[i].id, priors[i].name, priors[i].arguments))
  }

  lemma {:induction false} RenderedEntries(priors: seq<Prior>, c: Context, n: nat)
    requires n <= |priors| && AllReplayable(priors, c)
    ensures RenderedCalls(CallsOf(priors), c.codec, n) == Some(Wrapped(PayloadsOf(priors))[..n])
  {
    hide Replayable, RenderedCall, PayloadOf, WellFormed, Fault, CallOf;
    if n > 0 {
      RenderedEntries(priors, c, n - 1);
      var p := priors[n - 1];
      RenderedPrior(p, c);
      var list := Wrapped(PayloadsOf(priors));
      assert CallsOf(priors)[n - 1] == p.call && list[n - 1] == Obj(PayloadOf(p));
      assert list[..n] == list[..n - 1] + [list[n - 1]];
    }
  }

  lemma RenderedPrior(p: Prior, c: Context)
    requires Replayable(p.call, p.id, p.name, p.arguments, c)
    ensures RenderedCall(p.call, c.codec) == Some(Obj(PayloadOf(p))) && WellFormed(Obj(PayloadOf(p)), c.codec)
    ensures Fault(PayloadOf(p), c).None?
    ensures forall number :: CallOf(PayloadOf(p), c, number) == ParsedCall(p.id, p.name, p.arguments)
  {
    RenderedEntry(p.call, p.id, p.name, p.arguments, c);
    EntryWellFormed(p.id, p.name, p.arguments, c.codec);
    hide RenderedCall, WellFormed, Fault, CallOf, SchemaAccepts, FindTool, Strip;
    forall number: nat ensures Fault(PayloadOf(p), c).None?
      ensures CallOf(PayloadOf(p), c, number) == ParsedCall(p.id, p.name, p.arguments)
    {
      EntryHasNoFault(p.id, p.name, p.arguments, c, number);
    }
    EntryHasNoFault(p.id, p.name, p.arguments, c, 0);
  }

  lemma PayloadWellFormed(priors: seq<Prior>, c: Context)
    requires AllReplayable(priors, c)
    ensures WellFormed(Payload(Wrapped(PayloadsOf(priors))), c.codec)
  {
    hide Replayable, PayloadOf;
    var list := Wrapped(PayloadsOf(priors));
    forall i | 0 <= i < |list| ensures WellFormed(list[i], c.codec) { RenderedPrior(priors[i], c); }
    assert WellFormed(Arr(list), c.codec);
  }

  lemma PayloadShape(payloads: seq<Members>)
    requires |payloads| > 0
    ensures NormalizeShape(Payload(Wrapped(payloads))) == Some(payloads)
  {
    var m := [Member(TOOL_CALL_BATCH_KEY, Arr(Wrapped(payloads)))];
    assert m[0].key in Keys(m);
    LookupAt(m, 0);
    var list := Wrapped(payloads);
    assert seq(|list|, i requires 0 <= i < |list| => list[i].members) == payloads;
  }

  lemma {:induction false} AllCallsAdded(priors: seq<Prior>, c: Context, n: nat)
    requires n <= |priors| && AllReplayable(priors, c)
    ensures AddCalls(Tally([], []), PayloadsOf(priors), c, 0, n) == Tally(ResultsOf(priors)[..n], [])
  {
    hide Replayable, PayloadOf, Fault, CallOf;
    if n > 0 {
      AllCallsAdded(priors, c, n - 1);
      RenderedPrior(priors[n - 1], c);
      assert PayloadsOf(priors)[n - 1] == PayloadOf(priors[n - 1]);
    }
  }

  lemma OneDecodedCandidate(text: string, payload: Json, payloads: seq<Members>, c: Context)
    requires c.codec.loads(text) == Some(payload) && NormalizeShape(payload) == Some(payloads)
    ensures DecodeCandidates([text], c.codec, 1) == [Decoded(payload)]
    ensures TallyUpTo([Decoded(payload)], c, 1) == AddCalls(Tally([], []), payloads, c, 0, |payloads|)
  {
    hide NormalizeShape, AddCalls;
    assert DecodeCandidates([text], c.codec, 0) == [];
    assert TallyUpTo([Decoded(payload)], c, 0) == Tally([], []);
  }

  lemma RenderedText(priors: seq<Prior>, c: Context) returns (text: string)
    requires |priors| > 0 && AllReplayable(priors, c) && CodecLaw(c.codec)
    ensures Rendered(CallsOf(priors), c.codec) == Some(text)
    ensures c.codec.loads(text) == Some(Payload(Wrapped(PayloadsOf(priors))))
    ensures text == Dumps(Payload(Wrapped(PayloadsOf(priors))), c.codec.floats)
    ensures Printing(text) && Strip(text) == text && LooksLikeToolCall(text)
  {
    var list := Wrapped(PayloadsOf(priors));
    RenderedEntries(priors, c, |priors|);
    assert list[..|priors|] == list;
    PayloadWellFormed(priors, c);
    text := Dumps(Payload(list), c.codec.floats);
    DumpsPrints(Payload(list), c.codec.floats);
    var inner := PayloadText(list, c.codec.floats);
    BracedTextIsACandidate(text, "\"" + TOOL_CALL_BATCH_KEY + "\"", inner);
  }

  ghost function Replayed(priors: seq<Prior>): ParseResult {
    ParseResult(AllParsed, ResultsOf(priors), [], "", |priors| > 1)
  }

  /** Without a Gemma span in the text, the calls come back. */
  lemma RenderThenParseSpanless(priors: seq<Prior>, c: Context)
    requires |priors| > 0 && AllReplayable(priors, c) && CodecLaw(c.codec) && Lawful(c.matcher)
    requires Rendered(CallsOf(priors), c.codec).Some?
    requires c.matcher.natives(Rendered(CallsOf(priors), c.codec).value) == []
    ensures Parse(Rendered(CallsOf(priors), c.codec).value, c) == Replayed(priors)
  {
    hide AllReplayable, CodecLaw, Lawful, Rendered, Printing, Strip, LooksLikeToolCall, Parse, Dumps;
    var text := RenderedText(priors, c);
    WholeTextIsTheCandidate(text, c);
    TallyOfPriors(text, priors, c);
    ParseFromTally(text, Decoded(Payload(Wrapped(PayloadsOf(priors)))), ResultsOf(priors), c);
  }

  lemma TallyOfPriors(text: string, priors: seq<Prior>, c: Context)
    requires |priors| > 0 && AllReplayable(priors, c)
    requires c.codec.loads(text) == Some(Payload(Wrapped(PayloadsOf(priors))))
    ensures var candidate := Decoded(Payload(Wrapped(PayloadsOf(priors))));
      && DecodeCandidates([text], c.codec, 1) == [candidate]
      && TallyUpTo([candidate], c, 1) == Tally(ResultsOf(priors), [])
  {
    hide AllReplayable, NormalizeShape, TallyUpTo, AddCalls, DecodeCandidates, Wrapped, PayloadsOf;
    var payloads := PayloadsOf(priors);
    PayloadCount(priors);
    PayloadShape(payloads);
    OneDecodedCandidate(text, Payload(Wrapped(payloads)), payloads, c);
    AllCallsAdded(priors, c, |priors|);
    assert ResultsOf(priors)[..|priors|] == ResultsOf(priors);
  }

  lemma ParseFromTally(text: string, candidate: Candidate, calls: seq<ParsedCall>, c: Context)
    requires Lawful(c.matcher) && |calls| > 0
    requires AllCandidates(text, c) == [candidate] && RemainingText(text, c) == ""
    requires TallyUpTo([candidate], c, 1) == Tally(calls, [])
    ensures Parse(text, c) == ParseResult(AllParsed, calls, [], "", |calls| > 1)
  {
    hide Lawful, AllCandidates, RemainingText, TallyUpTo;
  }

  lemma PayloadCount(priors: seq<Prior>)
    ensures |PayloadsOf(priors)| == |priors|
  {}

  // ---------------------------------------------------------------- spans in the text

  /** A mark in the id, the name or a string or key of the arguments. */
  ghost predicate Marked(prior: Prior, mark: string) {
    Contains(prior.id, mark) || Contains(prior.name, mark) || HasMark(Obj(prior.arguments), mark)
  }

  lemma EntryMarks(prior: Prior, mark: string)
    requires IsMark(mark)
    ensures HasMark(Obj(PayloadOf(prior)), mark) <==> Marked(prior, mark)
  {
    var m := PayloadOf(prior);
    WordHasNoMark("id", mark);
    WordHasNoMark(TOOL_CALL_NAME_KEY, mark);
    WordHasNoMark(ARGUMENT_KEYS[0], mark);
    hide Contains, IsMark;
    assert HasMark(m[0].value, mark) <==> Contains(prior.id, mark);
    assert HasMark(m[1].value, mark) <==> Contains(prior.name, mark);
    assert m[2].value == Obj(prior.arguments);
    hide HasMark;
    assert MembersMarked(m, mark) <==> Marked(prior, mark);
    ObjectMarks(m, mark);
  }

  lemma ObjectMarks(m: Members, mark: string)
    ensures HasMark(Obj(m), mark) <==> MembersMarked(m, mark)
  {}

  lemma WordHasNoMark(word: string, mark: string)
    requires IsMark(mark) && '<' !in word
    ensures !Contains(word, mark)
  {
    StartsLater(word, "", mark);
    NothingContains(mark);
    assert word + "" == word;
  }

  /** What the calls hold is what the rendered text shows. */
  lemma RenderedShows(priors: seq<Prior>, c: Context, mark: string)
    requires IsMark(mark) && CodecLaw(c.codec)
    ensures var shown := Contains(Dumps(Payload(Wrapped(PayloadsOf(priors))), c.codec.floats), mark);
      Shows(exists i :: 0 <= i < |priors| && Marked(priors[i], mark), shown, mark)
  {
    var list := Wrapped(PayloadsOf(priors));
    WordHasNoMark(TOOL_CALL_BATCH_KEY, mark);
    hide Contains, IsMark, StaysInside, Dumps, Marked;
    forall i | 0 <= i < |priors|
      ensures HasMark(list[i], mark) <==> Marked(priors[i], mark)
    {
      EntryMarks(priors[i], mark);
    }
    var m := [Member(TOOL_CALL_BATCH_KEY, Arr(list))];
    assert m[0].value == Arr(list);
    assert HasMark(Arr(list), mark) <==> exists i | 0 <= i < |priors| :: Marked(priors[i], mark) by {
      ListMarks(list, mark);
    }
    hide HasMark;
    assert MembersMarked(m, mark) <==> HasMark(Arr(list), mark);
    ObjectMarks(m, mark);
    DumpsShows(Payload(list), c.codec.floats, mark);
  }

  lemma ListMarks(items: seq<Json>, mark: string)
    ensures HasMark(Arr(items), mark) <==> exists i :: 0 <= i < |items| && HasMark(items[i], mark)
  {}

  const NATIVE_MARK := "<|tool_call>"

  /** A Gemma span starts with its mark. */
  ghost predicate SpansAreMarked(matcher: Matcher) {
    forall text :: matcher.natives(text) != [] ==> Contains(text, NATIVE_MARK)
  }

  lemma NativeMarkIsAMark()
    ensures IsMark(NATIVE_MARK) && StaysInside(NATIVE_MARK)
  {
    forall ch | ch in NATIVE_MARK ensures IsPlain(ch) && ch !in "\"[]{},:" {
      assert ch in ['<', '|', 't', 'o', 'l', '_', 'c', 'a', '>'];
    }
  }

  /**
    Rendering replayable calls and parsing the text gives the same calls back, in order, with nothing
    left over, if no id, name, key or string of the calls holds the mark of a Gemma call.
    */
  lemma RenderThenParse(priors: seq<Prior>, c: Context)
    requires |priors| > 0 && AllReplayable(priors, c) && CodecLaw(c.codec) && Lawful(c.matcher)
    requires SpansAreMarked(c.matcher) && forall i | 0 <= i < |priors| :: !Marked(priors[i], NATIVE_MARK)
    ensures Rendered(CallsOf(priors), c.codec).Some?
    ensures Parse(Rendered(CallsOf(priors), c.codec).value, c) == Replayed(priors)
  {
    hide AllReplayable, CodecLaw, Lawful, Rendered, Printing, Strip, LooksLikeToolCall, Parse, Dumps, Contains,
      Marked, IsMark, StaysInside, PayloadsOf, Wrapped;
    var text := RenderedText(priors, c);
    NativeMarkIsAMark();
    RenderedShows(priors, c, NATIVE_MARK);
    assert c.matcher.natives(text) == [];
    RenderThenParseSpanless(priors, c);
  }

  lemma {:induction false} CallsOnlyGrow(tally: Tally, payloads: seq<Members>, c: Context, index: nat, n: nat)
    requires n <= |payloads|
    ensures var after := AddCalls(tally, payloads, c, index, n);
      tally.calls <= after.calls && tally.issues <= after.issues
  {
    hide Fault, CallOf;
    if n > 0 { CallsOnlyGrow(tally, payloads, c, index, n - 1); }
  }

  lemma {:induction false} TallyOnlyGrows(candidates: seq<Candidate>, c: Context, n: nat, m: nat)
    requires n <= m <= |candidates|
    ensures TallyUpTo(candidates, c, n).calls <= TallyUpTo(candidates, c, m).calls
    ensures TallyUpTo(candidates, c, n).issues <= TallyUpTo(candidates, c, m).issues
  {
    hide NormalizeShape, AddCalls;
    if n < m {
      TallyOnlyGrows(candidates, c, n, m - 1);
      var before := TallyUpTo(candidates, c, m - 1);
      if candidates[m - 1].Decoded? && NormalizeShape(candidates[m - 1].payload).Some? {
        var shape := NormalizeShape(candidates[m - 1].payload).value;
        CallsOnlyGrow(before, shape, c, m - 1, |shape|);
      }
    }
  }

  /** A Gemma span that comes first is answered by an issue or by a call whose id is its number. */
  lemma NativeComesFirst(m: NativeMatch, candidates: seq<Candidate>, c: Context)
    requires |candidates| > 0 && candidates[0] == NativeCandidate(m)
    ensures var tally := TallyUpTo(candidates, c, 1);
      |tally.issues| > 0 || (|tally.calls| > 0 && tally.calls[0].callId == "call_" + Numeral(1))
  {
    hide Fault, ArgumentsOf, GemmaParser.Arguments;
    assert TallyUpTo(candidates, c, 0) == Tally([], []);
    if candidates[0].Decoded? {
      var payload := candidates[0].payload.members;
      NativePayload(payload);
      assert TallyUpTo(candidates, c, 1) == AddCalls(Tally([], []), [payload], c, 0, 1);
      assert AddCalls(Tally([], []), [payload], c, 0, 0) == Tally([], []);
    }
  }

  lemma NativePayload(payload: Members)
    requires |payload| == 2 && payload[0].key == TOOL_CALL_NAME_KEY && payload[1].key == ARGUMENT_KEYS[0]
    ensures Get(payload, "id") == None && NormalizeShape(Obj(payload)) == Some([payload])
  {
    assert payload[0].key == "name" && payload[1].key == "arguments";
    assert payload[0].key in Keys(payload);
    assert Keys(payload) == {"name", "arguments"};
  }

  /** With a Gemma span in the text the first reported call, if there is one, is called `call_1`. */
  lemma SpanIsAnsweredFirst(text: string, c: Context)
    requires Lawful(c.matcher) && c.matcher.natives(text) != []
    ensures var r := Parse(text, c); |r.issues| > 0 || (|r.calls| > 0 && r.calls[0].callId == "call_" + Numeral(1))
  {
    hide Lawful, RemainingText, Fault, CallOf, TallyUpTo, NativeCandidate, Ordered;
    var natives := c.matcher.natives(text);
    var candidates := AllCandidates(text, c);
    FirstNative(natives, |natives|);
    hide AllCandidates;
    NativeComesFirst(natives[0], candidates, c);
    TallyOnlyGrows(candidates, c, 1, |candidates|);
  }

  lemma {:induction false} FirstNative(natives: seq<NativeMatch>, n: nat)
    requires 0 < n <= |natives|
    ensures |NativeCandidates(natives, n)| == n && NativeCandidates(natives, n)[0] == NativeCandidate(natives[0])
  {
    hide NativeCandidate;
    if n > 1 { FirstNative(natives, n - 1); } else { assert NativeCandidates(natives, 0) == []; }
  }

  /** The round trip holds exactly when the text has no Gemma span, save for calls that are already called `call_1`. */
  lemma RoundTripsExactly(priors: seq<Prior>, c: Context)
    requires |priors| > 0 && AllReplayable(priors, c) && CodecLaw(c.codec) && Lawful(c.matcher)
    requires priors[0].id != "call_" + Numeral(1)
    ensures Rendered(CallsOf(priors), c.codec).Some?
    ensures var text := Rendered(CallsOf(priors), c.codec).value;
      Parse(text, c) == Replayed(priors) <==> c.matcher.natives(text) == []
  {
    hide AllReplayable, CodecLaw, Lawful, Rendered, Printing, Strip, LooksLikeToolCall, Parse, Dumps;
    var text := RenderedText(priors, c);
    if c.matcher.natives(text) == [] {
      RenderThenParseSpanless(priors, c);
    } else {
      SpanIsAnsweredFirst(text, c);
    }
  }

  /** A call that holds the text of a Gemma span does not come back. */
  lemma CallHoldingASpan(priors: seq<Prior>, i: nat, span: string, c: Context)
    requires i < |priors| && AllReplayable(priors, c) && CodecLaw(c.codec) && Lawful(c.matcher)
    requires IsMark(span) && Marked(priors[i], span) && forall text ::
      Contains(text, span) ==> c.matcher.natives(text) != []
    requires priors[0].id != "call_" + Numeral(1)
    ensures Rendered(CallsOf(priors), c.codec).Some?
    ensures Parse(Rendered(CallsOf(priors), c.codec).value, c) != Replayed(priors)
  {
    hide AllReplayable, CodecLaw, Lawful, Rendered, Printing, Strip, LooksLikeToolCall, Parse, Dumps, Contains,
      Marked, IsMark, StaysInside, PayloadsOf, Wrapped;
    var text := RenderedText(priors, c);
    RenderedShows(priors, c, span);
    assert Contains(text, span);
    RoundTripsExactly(priors, c);
  }
}
