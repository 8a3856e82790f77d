/** What the tool-call parser and the renderer do with payloads given key by key. */
module ToolCallReadings {
  import opened Wrappers
  import opened Whitespace
  import opened JsonValues
  import opened Numerals
  import opened ToolCallContract
  import opened ToolCalls
  import opened ToolCallTheorems
  import SchemaIssues

  // ---------------------------------------------------------------- one call

  /** The arguments a payload gives, under either key; none are the empty ones. */
  ghost predicate Gives(payload: Members, arguments: Members) {
    match Get(payload, "arguments")
    case Some(given) => given == Obj(arguments)
    case None => match Get(payload, "input")
                 case Some(given) => given == Obj(arguments)
                 case None => arguments == []
  }

  /** The payload has an id of its own. */
  ghost predicate HasId(payload: Members, id: string) { id != "" && Get(payload, "id") == Some(Str(id)) }

  /** The call is the payload's: its name, its arguments, and its id or the given number. */
  ghost predicate IsCallOf(call: ParsedCall, payload: Members, number: nat) {
    && Get(payload, "name") == Some(Str(call.name)) && Gives(payload, call.arguments)
    && (HasId(payload, call.callId)
        || ((forall id :: !HasId(payload, id)) && call.callId == "call_" + Numeral(number)))
  }

  lemma CallIsCallOf(payload: Members, c: Context, number: nat)
    requires Fault(payload, c).None?
    ensures IsCallOf(CallOf(payload, c, number), payload, number)
  {
    hide SchemaAccepts, Strip, FindTool, Numeral;
  }

  lemma GoodAreNumbered(calls: seq<ParsedCall>, good: seq<Entry>, c: Context)
    requires CallsAnswer(calls, good, c)
    ensures |calls| == |good| && forall i | 0 <= i < |calls| ::
      good[i].Call? && IsCallOf(calls[i], good[i].payload, i + 1)
  {
    hide Fault, CallOf, IsCallOf;
    forall i | 0 <= i < |calls| ensures good[i].Call? && IsCallOf(calls[i], good[i].payload, i + 1) {
      CallIsCallOf(good[i].payload, c, i + 1);
    }
  }

  lemma ParsedCallsAnswer(text: string, c: Context)
    requires Lawful(c.matcher)
    ensures var candidates := AllCandidates(text, c);
      CallsAnswer(Parse(text, c).calls, Good(Entries(candidates, |candidates|), c), c)
  {
    hide AllCandidates, RemainingText, TallyUpTo, Entries, Fault, CallOf, Good, Bad, CallsAnswer, IssuesAnswer;
    var candidates := AllCandidates(text, c);
    EveryEntryIsAnswered(candidates, c, |candidates|);
    if |candidates| == 0 { OneMoreCandidate(candidates, c, 0); }
  }

  /** The calls are those of the faultless entries, in order, and numbered from one. */
  lemma CallsAreNumbered(text: string, c: Context)
    requires Lawful(c.matcher)
    ensures var calls, candidates := Parse(text, c).calls, AllCandidates(text, c);
      var good := Good(Entries(candidates, |candidates|), c);
      |calls| == |good| && forall i | 0 <= i < |calls| :: good[i].Call? && IsCallOf(calls[i], good[i].payload, i + 1)
  {
    hide *;
    ParsedCallsAnswer(text, c);
    var candidates := AllCandidates(text, c);
    GoodAreNumbered(Parse(text, c).calls, Good(Entries(candidates, |candidates|), c), c);
  }

  /** Two calls without ids of their own get different ones. */
  lemma GeneratedIdsDiffer(a: ParsedCall, b: ParsedCall, p: Members, q: Members, i: nat, j: nat)
    requires i != j && IsCallOf(a, p, i) && IsCallOf(b, q, j)
    requires forall id :: !HasId(p, id) && !HasId(q, id)
    ensures a.callId != b.callId
  {
    assert ("call_" + Numeral(i))[5..] == Numeral(i) && ("call_" + Numeral(j))[5..] == Numeral(j);
    if Numeral(i) == Numeral(j) { NumeralInjective(i, j); }
  }

  /** So the generated ids of a text's calls are pairwise distinct. */
  lemma GeneratedIdsAreDistinct(text: string, c: Context, i: nat, j: nat)
    requires Lawful(c.matcher) && i < j < |Parse(text, c).calls|
    ensures var calls, candidates := Parse(text, c).calls, AllCandidates(text, c);
      var good := Good(Entries(candidates, |candidates|), c);
      && |good| == |calls| && good[i].Call? && good[j].Call?
      && ((forall id :: !HasId(good[i].payload, id) && !HasId(good[j].payload, id))
        ==> calls[i].callId != calls[j].callId)
  {
    hide *;
    CallsAreNumbered(text, c);
    var calls, candidates := Parse(text, c).calls, AllCandidates(text, c);
    var good := Good(Entries(candidates, |candidates|), c);
    if forall id :: !HasId(good[i].payload, id) && !HasId(good[j].payload, id) {
      GeneratedIdsDiffer(calls[i], calls[j], good[i].payload, good[j].payload, i + 1, j + 1);
    }
  }

  // ---------------------------------------------------------------- when a payload has no fault

  /** The last tool of a name. */
  ghost predicate IsLastNamed(tools: seq<Tool>, name: string, k: nat) {
    k < |tools| && tools[k].name == name && forall j | k < j < |tools| :: tools[j].name != name
  }

  lemma {:induction false} FoundIsLast(tools: seq<Tool>, name: string)
    ensures FindTool(tools, name).Some? <==> exists k: nat :: IsLastNamed(tools, name, k)
    ensures forall k: nat | IsLastNamed(tools, name, k) :: FindTool(tools, name) == Some(tools[k])
  {
    if |tools| > 0 {
      var front, last := tools[..|tools| - 1], |tools| - 1;
      FoundIsLast(front, name);
      if tools[last].name == name {
        assert IsLastNamed(tools, name, last);
      } else {
        forall k: nat ensures IsLastNamed(tools, name, k) <==> IsLastNamed(front, name, k) {}
      }
    }
  }

  /** The tool's schema, if it has one, accepts the arguments. */
  ghost predicate Admits(tool: Tool, arguments: Members, c: Context) {
    tool.inputSchema != [] ==> SchemaIssues.Validate(Obj(tool.inputSchema), Obj(arguments), c.library) == []
  }

  /** Nothing is wrong with a call that names the last declared tool of a name that is not blank and fits its schema. */
  ghost predicate IsProper(payload: Members, c: Context) {
    exists name, arguments, k: nat :: IsProperWith(payload, c, name, arguments, k)
  }

  ghost predicate IsProperWith(payload: Members, c: Context, name: string, arguments: Members, k: nat) {
    && Get(payload, "name") == Some(Str(name)) && (exists ch | ch in name :: !IsSpace(ch))
    && IsLastNamed(c.tools, name, k) && Gives(payload, arguments) && Admits(c.tools[k], arguments, c)
  }

  lemma ArgumentsAreGiven(payload: Members, arguments: Members)
    ensures ArgumentsOf(payload) == Obj(arguments) <==> Gives(payload, arguments)
  {}

  lemma FaultlessExactly(payload: Members, c: Context)
    ensures Fault(payload, c).None? <==> IsProper(payload, c)
  {
    hide FindTool, Strip, SchemaIssues.Validate, ArgumentsOf, Gives, IsLastNamed;
    match Get(payload, "name")
    case Some(Str(name)) =>
      StripIsEmpty(name);
      FoundIsLast(c.tools, name);
      var given := ArgumentsOf(payload);
      if Fault(payload, c).None? {
        ArgumentsAreGiven(payload, given.members);
        var k: nat :| IsLastNamed(c.tools, name, k);
        assert k < |c.tools| by { LastIsThere(c.tools, name, k); }
        assert IsProperWith(payload, c, name, given.members, k);
      }
      if IsProper(payload, c) {
        var n, arguments, k: nat :| IsProperWith(payload, c, n, arguments, k);
        ArgumentsAreGiven(payload, arguments);
      }
    case _ =>
  }

  lemma LastIsThere(tools: seq<Tool>, name: string, k: nat)
    requires IsLastNamed(tools, name, k)
    ensures k < |tools|
  {}

  // ---------------------------------------------------------------- shapes

  function Objects(calls: seq<Members>): Json {
    Arr(seq(|calls|, i requires 0 <= i < |calls| => Obj(calls[i])))
  }

  /** The calls of a candidate: the objects of a list under `tool_calls`, the object under `tool_call`, or itself. */
  lemma ShapesAre(m: Members, calls: seq<Members>)
    ensures Get(m, "tool_calls").Some? ==>
      (NormalizeShape(Obj(m)) == Some(calls) <==> |calls| > 0 && Get(m, "tool_calls") == Some(Objects(calls)))
    ensures Get(m, "tool_calls").None? && Get(m, "tool_call").Some? ==>
      (NormalizeShape(Obj(m)) == Some(calls) <==> |calls| == 1 && Get(m, "tool_call") == Some(Obj(calls[0])))
    ensures Get(m, "tool_calls").None? && Get(m, "tool_call").None? ==>
      (NormalizeShape(Obj(m)) == Some(calls) <==> Get(m, "name").Some? && calls == [m])
  {
    assert |calls| == 1 ==> calls == [calls[0]];
    match Get(m, "tool_calls")
    case Some(Arr(items)) =>
      if forall i | 0 <= i < |items| :: items[i].Obj? {
        var inner := seq(|items|, i requires 0 <= i < |items| => items[i].members);
        assert Objects(inner) == Arr(items);
        if Objects(calls) == Arr(items) {
          assert |calls| == |items|;
          forall i | 0 <= i < |calls| ensures calls[i] == inner[i] { assert Objects(calls).items[i] == Obj(calls[i]); }
          assert calls == inner;
        }
      } else if Objects(calls) == Arr(items) {
        forall i | 0 <= i < |items| ensures items[i].Obj? { assert Objects(calls).items[i] == Obj(calls[i]); }
        assert false;
      }
    case _ =>
  }

  lemma OnlyObjectsHaveShapes(payload: Json)
    requires !payload.Obj?
    ensures NormalizeShape(payload) == None
  {}

  lemma TwoEntries(c: Context, p: Members, q: Members)
    ensures var candidates := [Decoded(Obj([Member("tool_calls", Arr([Obj(p), Obj(q)]))]))];
      Entries(candidates, 1) == [Call(p, 0), Call(q, 0)]
  {
    var m := [Member("tool_calls", Arr([Obj(p), Obj(q)]))];
    assert Get(m, "tool_calls") == Some(Arr([Obj(p), Obj(q)])) by { assert m[0].key in Keys(m); }
    assert Objects([p, q]) == Arr([Obj(p), Obj(q)]);
    ShapesAre(m, [p, q]);
    hide NormalizeShape;
    assert Entries([Decoded(Obj(m))], 0) == [];
  }

  /** Two calls under `tool_calls`, as a text's only candidate, are called `call_1` and `call_2`. */
  lemma TwoCallsAreNumbered(text: string, c: Context, p: Members, q: Members)
    requires Lawful(c.matcher)
    requires AllCandidates(text, c) == [Decoded(Obj([Member("tool_calls", Arr([Obj(p), Obj(q)]))]))]
    requires IsProper(p, c) && IsProper(q, c) && forall id :: !HasId(p, id) && !HasId(q, id)
    ensures var calls := Parse(text, c).calls;
      |calls| == 2 && calls[0].callId == "call_1" && calls[1].callId == "call_2"
  {
    hide *;
    TwoEntries(c, p, q);
    ProperEntry(p, c);
    ProperEntry(q, c);
    TwoGood(Call(p, 0), Call(q, 0), c);
    CallsAreNumbered(text, c);
    var calls := Parse(text, c).calls;
    NumberedId(calls[0], p, 1);
    NumberedId(calls[1], q, 2);
    OneAndTwo();
  }

  lemma OneAndTwo()
    ensures "call_" + Numeral(1) == "call_1" && "call_" + Numeral(2) == "call_2"
  {
    assert Numeral(1) == "1" && Numeral(2) == "2";
  }

  lemma ProperEntry(payload: Members, c: Context)
    requires IsProper(payload, c)
    ensures EntryFault(Call(payload, 0), c).None?
  {
    hide IsProper, Fault;
    FaultlessExactly(payload, c);
  }

  lemma TwoGood(a: Entry, b: Entry, c: Context)
    requires EntryFault(a, c).None? && EntryFault(b, c).None?
    ensures Good([a, b], c) == [a, b]
  {
    hide EntryFault;
    OneMoreEntry([], a, c);
    OneMoreEntry([a], b, c);
    assert [] + [a] == [a] && [a] + [b] == [a, b];
  }

  lemma NumberedId(call: ParsedCall, payload: Members, number: nat)
    requires IsCallOf(call, payload, number) && forall id :: !HasId(payload, id)
    ensures call.callId == "call_" + Numeral(number)
  {}

  // ---------------------------------------------------------------- what is looked for

  /** A text may be a call if it is in braces and quotes one of the three keys. */
  lemma LooksLikeExactly(text: string)
    ensures LooksLikeToolCall(text) <==>
      && |text| > 0 && text[0] == '{' && text[|text| - 1] == '}'
      && (Contains(text, "\"tool_call\"") || Contains(text, "\"tool_calls\"") || Contains(text, "\"name\""))
  {
    assert "\"" + TOOL_CALL_SINGLE_KEY + "\"" == "\"tool_call\""
      && "\"" + TOOL_CALL_BATCH_KEY + "\"" == "\"tool_calls\"";
    assert "\"" + TOOL_CALL_NAME_KEY + "\"" == "\"name\"";
    hide Contains;
  }

  /** Case folding of a language tag, letter by letter. */
  lemma {:induction false} FoldsLetters(s: string)
    ensures |CaseFold(s)| == |s|
    ensures forall i | 0 <= i < |s| ::
      CaseFold(s)[i] as int == if 65 <= s[i] as int <= 90 then s[i] as int + 32 else s[i] as int
  {
    if |s| > 0 { FoldsLetters(s[1..]); }
  }

  // ---------------------------------------------------------------- rendered calls

  /** What the `function` of a prior call says; anything false in Python says nothing. */
  ghost predicate FunctionIs(call: Members, f: Members) {
    match Get(call, "function")
    case None => f == []
    case Some(Obj(members)) => f == members
    case Some(v) => f == [] && v in {Null, Bool(false), Int(0), Float(0.0), Str(""), Arr([])}
  }

  /** A string of arguments is decoded if it can be; other arguments stay, and none are the text `{}`. */
  ghost function RenderedArguments(f: Members, codec: Codec): Json {
    match Get(f, "arguments")
    case Some(Str(text)) => if codec.loads(text).Some? then codec.loads(text).value else Str(text)
    case Some(given) => given
    case None => if codec.loads("{}").Some? then codec.loads("{}").value else Str("{}")
  }

  lemma RenderedCallIs(call: Members, f: Members, codec: Codec)
    requires FunctionIs(call, f)
    ensures RenderedCall(call, codec) == Some(Obj([
      Member("id", if Get(call, "id").Some? then Get(call, "id").value else Null),
      Member("name", if Get(f, "name").Some? then Get(f, "name").value else Null),
      Member("arguments", RenderedArguments(f, codec))]))
  {}

  /** Rendering fails at a `function` that is neither a dictionary nor false in Python. */
  lemma RenderingFailsExactly(call: Members, codec: Codec)
    ensures RenderedCall(call, codec).None? <==> forall f :: !FunctionIs(call, f)
  {
    match Get(call, "function")
    case Some(Obj(members)) => assert FunctionIs(call, members);
    case _ => assert RenderedCall(call, codec).Some? ==> FunctionIs(call, []);
  }
}
