/**
  `parse_tool_calls`: candidates are extracted from model output, brought to one shape and checked
  against the declared tools. The regular expressions are a parameter: what `finditer` yields.
  */
module ToolCalls {
  import opened Wrappers
  import opened JsonValues
  import opened Numerals
  import opened Whitespace
  import opened ToolCallContract
  import GemmaParser
  import SchemaChecks
  import SchemaIssues
  import SchemaValidator

  datatype Span = Span(start: nat, end: nat)

  /** A fenced block and a Gemma call span, with their groups. */
  datatype Fence = Fence(span: Span, language: string, body: string)

  datatype NativeMatch = NativeMatch(span: Span, name: string, arguments: string)

  datatype Matcher = Matcher(fences: string -> seq<Fence>, natives: string -> seq<NativeMatch>)

  datatype Tool = Tool(name: string, inputSchema: Members)

  /** Everything the parser calls that is not modelled here. */
  datatype Context = Context(matcher: Matcher, codec: Codec, library: SchemaChecks.Library, tools: seq<Tool>)

  datatype Candidate = Decoded(payload: Json) | Undecodable

  datatype ParsedCall = ParsedCall(callId: string, name: string, arguments: Members)

  datatype CallIssue = CallIssue(code: string, candidateIndex: nat)

  datatype Status = NoToolCalls | AllParsed | Partial | Failed

  datatype ParseResult =
    ParseResult(status: Status, calls: seq<ParsedCall>, issues: seq<CallIssue>, remaining: string, parallel: bool)

  // ---------------------------------------------------------------- text

  predicate OccursAt(text: string, needle: string, i: nat) {
    i + |needle| <= |text| && text[i..i + |needle|] == needle
  }

  predicate Contains(text: string, needle: string) {
    exists i: nat | i <= |text| :: OccursAt(text, needle, i)
  }

  predicate LooksLikeToolCall(text: string) {
    && |text| > 0 && text[0] == '{' && text[|text| - 1] == '}'
    && (Contains(text, "\"" + TOOL_CALL_SINGLE_KEY + "\"") || Contains(text, "\"" + TOOL_CALL_BATCH_KEY + "\"")
        || Contains(text, "\"" + TOOL_CALL_NAME_KEY + "\""))
  }

  /** `casefold` of a language tag, which is ASCII. */
  function CaseFold(s: string): string {
    if |s| == 0 then "" else [if 'A' <= s[0] <= 'Z' then s[0] - 'A' + 'a' else s[0]] + CaseFold(s[1..])
  }

  // ---------------------------------------------------------------- spans

  /** Increasing, disjoint and inside the text, as `finditer` yields them. */
  predicate Ordered(spans: seq<Span>, length: nat) {
    && (forall i | 0 <= i < |spans| :: spans[i].start <= spans[i].end <= length)
    && (forall i | 0 < i < |spans| :: spans[i - 1].end <= spans[i].start)
  }

  function Cursor(spans: seq<Span>, n: nat): nat
    requires n <= |spans|
  {
    if n == 0 then 0 else spans[n - 1].end
  }

  /** The text outside the first `n` spans, up to the end of the last of them. */
  function Outside(text: string, spans: seq<Span>, n: nat): string
    requires n <= |spans| && Ordered(spans, |text|)
  {
    if n == 0 then "" else Outside(text, spans, n - 1) + text[Cursor(spans, n - 1)..spans[n - 1].start]
  }

  ghost function Inside(text: string, spans: seq<Span>, n: nat): string
    requires n <= |spans| && Ordered(spans, |text|)
  {
    if n == 0 then "" else Inside(text, spans, n - 1) + text[spans[n - 1].start..spans[n - 1].end]
  }

  function Removed(text: string, spans: seq<Span>): string
    requires Ordered(spans, |text|)
  {
    Outside(text, spans, |spans|) + text[Cursor(spans, |spans|)..]
  }

  /** `_remove_spans`. */
  method RemoveSpans(text: string, spans: seq<Span>) returns (remaining: string)
    requires Ordered(spans, |text|)
    ensures remaining == Removed(text, spans)
  {
    if |spans| == 0 { return text; }
    remaining := "";
    var cursor := 0;
    for i := 0 to |spans|
      invariant remaining == Outside(text, spans, i) && cursor == Cursor(spans, i) <= |text|
    {
      remaining := remaining + text[cursor..spans[i].start];
      cursor := spans[i].end;
    }
    remaining := remaining + text[cursor..];
  }

  /** Removing spans loses exactly the text inside them. */
  lemma NothingElseRemoved(text: string, spans: seq<Span>)
    requires Ordered(spans, |text|)
    ensures multiset(text) == multiset(Removed(text, spans)) + multiset(Inside(text, spans, |spans|))
  {
    PrefixKept(text, spans, |spans|);
    var cursor := Cursor(spans, |spans|);
    assert text == text[..cursor] + text[cursor..];
  }

  lemma {:induction false} PrefixKept(text: string, spans: seq<Span>, n: nat)
    requires n <= |spans| && Ordered(spans, |text|)
    ensures Cursor(spans, n) <= |text|
    ensures multiset(text[..Cursor(spans, n)]) == multiset(Outside(text, spans, n)) + multiset(Inside(text, spans, n))
  {
    if n > 0 {
      PrefixKept(text, spans, n - 1);
      var a, b, c := Cursor(spans, n - 1), spans[n - 1].start, spans[n - 1].end;
      assert text[..c] == text[..a] + text[a..b] + text[b..c];
    }
  }

  // ---------------------------------------------------------------- candidates

  function NativeSpans(natives: seq<NativeMatch>): seq<Span> {
    seq(|natives|, i requires 0 <= i < |natives| => natives[i].span)
  }

  function FenceSpans(fences: seq<Fence>): seq<Span> {
    seq(|fences|, i requires 0 <= i < |fences| => fences[i].span)
  }

  /** What `finditer` promises for each pattern; the fence pattern needs a newline after its tag. */
  ghost predicate Lawful(matcher: Matcher) {
    && (forall text :: Ordered(NativeSpans(matcher.natives(text)), |text|))
    && (forall text :: Ordered(FenceSpans(matcher.fences(text)), |text|))
    && (forall text :: '\n' !in text ==> matcher.fences(text) == [])
  }

  lemma LawfulSpans(matcher: Matcher, text: string)
    requires Lawful(matcher)
    ensures Ordered(NativeSpans(matcher.natives(text)), |text|)
    ensures Ordered(FenceSpans(matcher.fences(text)), |text|)
    ensures '\n' !in text ==> matcher.fences(text) == []
  {}

  function NativeCandidate(m: NativeMatch): Candidate {
    var arguments := GemmaParser.Arguments(m.arguments);
    if arguments.None? then Undecodable
    else Decoded(Obj([Member(TOOL_CALL_NAME_KEY, Str(m.name)), Member(ARGUMENT_KEYS[0], arguments.value)]))
  }

  function NativeCandidates(natives: seq<NativeMatch>, n: nat): seq<Candidate>
    requires n <= |natives|
  {
    if n == 0 then [] else NativeCandidates(natives, n - 1) + [NativeCandidate(natives[n - 1])]
  }

  lemma NoNatives()
    ensures NativeSpans([]) == [] && FenceSpans([]) == [] && FenceBodies([]) == []
  {}

  lemma NativeSnoc(natives: seq<NativeMatch>, i: nat)
    requires i < |natives|
    ensures NativeSpans(natives[..i + 1]) == NativeSpans(natives[..i]) + [natives[i].span]
  {
    assert natives[..i + 1] == natives[..i] + [natives[i]];
  }

  method ExtractNativeCandidates(text: string, matcher: Matcher) returns (candidates: seq<Candidate>, rest: string)
    requires Lawful(matcher)
    ensures var natives := matcher.natives(text);
      && Ordered(NativeSpans(natives), |text|)
      && candidates == NativeCandidates(natives, |natives|) && rest == Removed(text, NativeSpans(natives))
  {
    LawfulSpans(matcher, text);
    hide Lawful, Ordered, NativeSpans, GemmaParser.Arguments;
    var natives := matcher.natives(text);
    var consumed: seq<Span> := [];
    candidates := [];
    NoNatives();
    assert natives[..0] == [];
    for i := 0 to |natives|
      invariant candidates == NativeCandidates(natives, i) && consumed == NativeSpans(natives[..i])
    {
      var m := natives[i];
      NativeSnoc(natives, i);
      consumed := consumed + [m.span];
      var arguments := GemmaParser.ParseArguments(m.arguments);
      if arguments.None? {
        candidates := candidates + [Undecodable];
        continue;
      }
      candidates := candidates + [
        Decoded(Obj([Member(TOOL_CALL_NAME_KEY, Str(m.name)), Member(ARGUMENT_KEYS[0], arguments.value)]))];
    }
    assert natives[..|natives|] == natives;
    rest := RemoveSpans(text, consumed);
  }

  predicate Taken(fence: Fence) {
    var language := CaseFold(fence.language);
    language == "json" || (language == "" && LooksLikeToolCall(Strip(fence.body)))
  }

  function TakenFences(fences: seq<Fence>, n: nat): seq<Fence>
    requires n <= |fences|
  {
    if n == 0 then []
    else if Taken(fences[n - 1]) then TakenFences(fences, n - 1) + [fences[n - 1]]
    else TakenFences(fences, n - 1)
  }

  lemma {:induction false} TakenOrdered(fences: seq<Fence>, length: nat, n: nat)
    requires n <= |fences| && Ordered(FenceSpans(fences), length)
    ensures var taken := TakenFences(fences, n);
      && Ordered(FenceSpans(taken), length)
      && (|taken| > 0 ==> n > 0 && taken[|taken| - 1].span.end <= fences[n - 1].span.end)
  {
    hide Taken;
    if n > 0 {
      TakenOrdered(fences, length, n - 1);
      var before, spans := TakenFences(fences, n - 1), FenceSpans(fences);
      assert spans[n - 1] == fences[n - 1].span;
      if n > 1 { assert spans[n - 2] == fences[n - 2].span; }
      if Taken(fences[n - 1]) {
        FenceSnoc(before, fences[n - 1]);
        if |before| > 0 { assert FenceSpans(before)[|before| - 1] == before[|before| - 1].span; }
        OrderedSnoc(FenceSpans(before), fences[n - 1].span, length);
      }
    }
  }

  lemma FenceSnoc(fences: seq<Fence>, last: Fence)
    ensures FenceSpans(fences + [last]) == FenceSpans(fences) + [last.span]
    ensures FenceBodies(fences + [last]) == FenceBodies(fences) + [Strip(last.body)]
  {
    hide Strip;
  }

  lemma OrderedSnoc(spans: seq<Span>, last: Span, length: nat)
    requires Ordered(spans, length) && last.start <= last.end <= length
    requires |spans| > 0 ==> spans[|spans| - 1].end <= last.start
    ensures Ordered(spans + [last], length)
  {
    var all := spans + [last];
    forall i | 0 < i < |all| ensures all[i - 1].end <= all[i].start {
      if i < |spans| { assert all[i] == spans[i] && all[i - 1] == spans[i - 1]; }
    }
  }

  function FenceBodies(fences: seq<Fence>): (bodies: seq<string>)
    ensures |bodies| == |fences|
  {
    seq(|fences|, i requires 0 <= i < |fences| => Strip(fences[i].body))
  }

  /** The JSON texts and what is left of the output. */
  ghost function JsonCandidates(text: string, matcher: Matcher): (seq<string>, string)
    requires Lawful(matcher)
  {
    var fences := matcher.fences(text);
    var taken := TakenFences(fences, |fences|);
    TakenOrdered(fences, |text|, |fences|);
    if |taken| == 0 && LooksLikeToolCall(Strip(text)) then ([Strip(text)], "")
    else (FenceBodies(taken), Strip(Removed(text, FenceSpans(taken))))
  }

  /** `_extract_candidates`. */
  method ExtractCandidates(text: string, matcher: Matcher) returns (candidates: seq<string>, rest: string)
    requires Lawful(matcher)
    ensures (candidates, rest) == JsonCandidates(text, matcher)
  {
    LawfulSpans(matcher, text);
    hide Lawful, Ordered, FenceSpans, FenceBodies, Strip, CaseFold, LooksLikeToolCall;
    var fences := matcher.fences(text);
    var consumed: seq<Span> := [];
    candidates := [];
    NoNatives();
    for i := 0 to |fences|
      invariant candidates == FenceBodies(TakenFences(fences, i))
      invariant consumed == FenceSpans(TakenFences(fences, i))
    {
      var language, body := CaseFold(fences[i].language), Strip(fences[i].body);
      if language != "" && language != "json" { continue; }
      if language != "json" && !LooksLikeToolCall(body) { continue; }
      FenceSnoc(TakenFences(fences, i), fences[i]);
      candidates, consumed := candidates + [body], consumed + [fences[i].span];
    }
    TakenOrdered(fences, |text|, |fences|);
    if |candidates| == 0 && LooksLikeToolCall(Strip(text)) { return [Strip(text)], ""; }
    var outside := RemoveSpans(text, consumed);
    rest := Strip(outside);
  }

  function DecodeCandidates(texts: seq<string>, codec: Codec, n: nat): seq<Candidate>
    requires n <= |texts|
  {
    if n == 0 then []
    else
      var decoded := codec.loads(texts[n - 1]);
      DecodeCandidates(texts, codec, n - 1) + [if decoded.None? then Undecodable else Decoded(decoded.value)]
  }

  /** `_normalize_candidate_shape`; None for an unrecognised shape. */
  function NormalizeShape(payload: Json): Option<seq<Members>> {
    if !payload.Obj? then None
    else if TOOL_CALL_BATCH_KEY in Keys(payload.members) then
      var calls := Lookup(payload.members, TOOL_CALL_BATCH_KEY);
      if calls.Arr? && |calls.items| > 0 && forall i | 0 <= i < |calls.items| :: calls.items[i].Obj? then
        Some(seq(|calls.items|, i requires 0 <= i < |calls.items| => calls.items[i].members))
      else None
    else if TOOL_CALL_SINGLE_KEY in Keys(payload.members) then
      var call := Lookup(payload.members, TOOL_CALL_SINGLE_KEY);
      if call.Obj? then Some([call.members]) else None
    else if TOOL_CALL_NAME_KEY in Keys(payload.members) then Some([payload.members])
    else None
  }

  // ---------------------------------------------------------------- one call

  /** `tool_index.get(name)`: of several tools with one name, the last. */
  function FindTool(tools: seq<Tool>, name: string): (r: Option<Tool>)
    ensures r.Some? ==> r.value in tools && r.value.name == name
    ensures r.None? ==> forall i | 0 <= i < |tools| :: tools[i].name != name
  {
    if |tools| == 0 then None
    else if tools[|tools| - 1].name == name then Some(tools[|tools| - 1])
    else FindTool(tools[..|tools| - 1], name)
  }

  function ArgumentsOf(payload: Members): Json {
    if ARGUMENT_KEYS[0] in Keys(payload) then Lookup(payload, ARGUMENT_KEYS[0])
    else if ARGUMENT_KEYS[1] in Keys(payload) then Lookup(payload, ARGUMENT_KEYS[1])
    else Obj([])
  }

  predicate SchemaAccepts(tool: Tool, arguments: Members, library: SchemaChecks.Library) {
    tool.inputSchema == [] || SchemaIssues.Validate(Obj(tool.inputSchema), Obj(arguments), library) == []
  }

  /** What is wrong with a call payload, if anything. */
  function Fault(payload: Members, c: Context): Option<string> {
    match Get(payload, TOOL_CALL_NAME_KEY)
    case Some(Str(name)) =>
      if Strip(name) == "" then Some("missing_name")
      else
        var tool := FindTool(c.tools, name);
        if tool.None? then Some("unknown_tool")
        else
          var arguments := ArgumentsOf(payload);
          if !arguments.Obj? then Some("arguments_not_object")
          else if SchemaAccepts(tool.value, arguments.members, c.library) then None
          else Some("schema_violation")
    case _ => Some("missing_name")
  }

  function CallOf(payload: Members, c: Context, number: nat): ParsedCall
    requires Fault(payload, c).None?
  {
    var id := match Get(payload, "id") case Some(Str(s)) => s case _ => "";
    ParsedCall(if id != "" then id else "call_" + Numeral(number),
               Lookup(payload, TOOL_CALL_NAME_KEY).s, ArgumentsOf(payload).members)
  }

  /** `_validate_call_payload`. */
  method ValidateCallPayload(payload: Members, c: Context, index: nat, number: nat)
    returns (r: Result<ParsedCall, CallIssue>)
    ensures Fault(payload, c).None? ==> r == Success(CallOf(payload, c, number))
    ensures Fault(payload, c).Some? ==> r == Failure(CallIssue(Fault(payload, c).value, index))
  {
    var name := Get(payload, TOOL_CALL_NAME_KEY);
    if name.None? || !name.value.Str? || Strip(name.value.s) == "" { return Failure(CallIssue("missing_name", index)); }
    var tool := FindTool(c.tools, name.value.s);
    if tool.None? { return Failure(CallIssue("unknown_tool", index)); }
    var arguments := ArgumentsOf(payload);
    if !arguments.Obj? { return Failure(CallIssue("arguments_not_object", index)); }
    if tool.value.inputSchema != [] {
      var issues := SchemaValidator.ValidateAgainstSchema(Obj(tool.value.inputSchema), arguments, c.library);
      if issues != [] { return Failure(CallIssue("schema_violation", index)); }
    }
    r := Success(CallOf(payload, c, number));
  }

  // ---------------------------------------------------------------- all candidates

  datatype Tally = Tally(calls: seq<ParsedCall>, issues: seq<CallIssue>)

  function AddCall(tally: Tally, payload: Members, c: Context, index: nat): Tally {
    var fault := Fault(payload, c);
    if fault.None? then tally.(calls := tally.calls + [CallOf(payload, c, |tally.calls| + 1)])
    else tally.(issues := tally.issues + [CallIssue(fault.value, index)])
  }

  function AddCalls(tally: Tally, payloads: seq<Members>, c: Context, index: nat, n: nat): Tally
    requires n <= |payloads|
  {
    if n == 0 then tally else AddCall(AddCalls(tally, payloads, c, index, n - 1), payloads[n - 1], c, index)
  }

  function AddCandidate(tally: Tally, candidate: Candidate, c: Context, index: nat): Tally {
    if candidate.Undecodable? then tally.(issues := tally.issues + [CallIssue("invalid_json", index)])
    else
      var shape := NormalizeShape(candidate.payload);
      if shape.None? then tally.(issues := tally.issues + [CallIssue("unrecognized_shape", index)])
      else AddCalls(tally, shape.value, c, index, |shape.value|)
  }

  function TallyUpTo(candidates: seq<Candidate>, c: Context, n: nat): Tally
    requires n <= |candidates|
  {
    if n == 0 then Tally([], []) else AddCandidate(TallyUpTo(candidates, c, n - 1), candidates[n - 1], c, n - 1)
  }

  ghost function AllCandidates(text: string, c: Context): seq<Candidate>
    requires Lawful(c.matcher)
  {
    var natives := c.matcher.natives(text);
    assert Ordered(NativeSpans(natives), |text|);
    var (texts, _) := JsonCandidates(Removed(text, NativeSpans(natives)), c.matcher);
    NativeCandidates(natives, |natives|) + DecodeCandidates(texts, c.codec, |texts|)
  }

  ghost function RemainingText(text: string, c: Context): string
    requires Lawful(c.matcher)
  {
    var natives := c.matcher.natives(text);
    assert Ordered(NativeSpans(natives), |text|);
    JsonCandidates(Removed(text, NativeSpans(natives)), c.matcher).1
  }

  function StatusOf(tally: Tally): Status {
    if |tally.calls| > 0 && |tally.issues| == 0 then AllParsed else if |tally.calls| > 0 then Partial else Failed
  }

  ghost function Parse(text: string, c: Context): ParseResult
    requires Lawful(c.matcher)
  {
    var candidates := AllCandidates(text, c);
    if |candidates| == 0 then ParseResult(NoToolCalls, [], [], text, false)
    else
      var tally := TallyUpTo(candidates, c, |candidates|);
      ParseResult(StatusOf(tally), tally.calls, tally.issues, RemainingText(text, c), |tally.calls| > 1)
  }

  method DecodeAll(texts: seq<string>, codec: Codec) returns (candidates: seq<Candidate>)
    ensures candidates == DecodeCandidates(texts, codec, |texts|)
  {
    candidates := [];
    for i := 0 to |texts|
      invariant candidates == DecodeCandidates(texts, codec, i)
    {
      var decoded := codec.loads(texts[i]);
      candidates := candidates + [if decoded.None? then Undecodable else Decoded(decoded.value)];
    }
  }

  /** `parse_tool_calls`. */
  method ParseToolCalls(text: string, c: Context) returns (result: ParseResult)
    requires Lawful(c.matcher)
    ensures result == Parse(text, c)
  {
    hide Lawful, Ordered, NativeSpans, NativeCandidates, DecodeCandidates, Removed, JsonCandidates, NormalizeShape,
      Fault;
    var natives, withoutNative := ExtractNativeCandidates(text, c.matcher);
    var texts, remaining := ExtractCandidates(withoutNative, c.matcher);
    var decoded := DecodeAll(texts, c.codec);
    var candidates := natives + decoded;
    if |candidates| == 0 { return ParseResult(NoToolCalls, [], [], text, false); }
    var calls: seq<ParsedCall>, issues: seq<CallIssue> := [], [];
    for i := 0 to |candidates|
      invariant Tally(calls, issues) == TallyUpTo(candidates, c, i)
    {
      if candidates[i].Undecodable? {
        issues := issues + [CallIssue("invalid_json", i)];
        continue;
      }
      var shape := NormalizeShape(candidates[i].payload);
      if shape.None? {
        issues := issues + [CallIssue("unrecognized_shape", i)];
        continue;
      }
      for j := 0 to |shape.value|
        invariant Tally(calls, issues) == AddCalls(TallyUpTo(candidates, c, i), shape.value, c, i, j)
      {
        var call := ValidateCallPayload(shape.value[j], c, i, |calls| + 1);
        match call {
          case Success(parsed) => calls := calls + [parsed];
          case Failure(issue) => issues := issues + [issue];
        }
      }
    }
    var status := if |calls| > 0 && |issues| == 0 then AllParsed else if |calls| > 0 then Partial else Failed;
    result := ParseResult(status, calls, issues, remaining, |calls| > 1);
  }
}
