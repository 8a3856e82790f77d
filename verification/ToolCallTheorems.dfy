/** What the tool-call parser guarantees about every output it is given. */
module ToolCallTheorems {
  import opened Wrappers
  import opened Whitespace
  import opened JsonValues
  import opened ToolCallContract
  import opened ToolCalls
  import SchemaIssues

  // ---------------------------------------------------------------- what has to be answered

  /** A candidate that is no list of calls, or one call of one that is. */
  datatype Entry = Broken(code: string, index: nat) | Call(payload: Members, index: nat)

  ghost function EntriesOf(candidate: Candidate, index: nat): seq<Entry> {
    if candidate.Undecodable? then [Broken("invalid_json", index)]
    else
      var shape := NormalizeShape(candidate.payload);
      if shape.None? then [Broken("unrecognized_shape", index)]
      else seq(|shape.value|, j requires 0 <= j < |shape.value| => Call(shape.value[j], index))
  }

  ghost function Entries(candidates: seq<Candidate>, n: nat): seq<Entry>
    requires n <= |candidates|
  {
    if n == 0 then [] else Entries(candidates, n - 1) + EntriesOf(candidates[n - 1], n - 1)
  }

  ghost function EntryFault(entry: Entry, c: Context): Option<string> {
    match entry
    case Broken(code, _) => Some(code)
    case Call(payload, _) => Fault(payload, c)
  }

  ghost function Good(entries: seq<Entry>, c: Context): (good: seq<Entry>)
    ensures forall e | e in good :: e in entries && EntryFault(e, c).None?
  {
    if |entries| == 0 then []
    else
      var front, last := entries[..|entries| - 1], entries[|entries| - 1];
      if EntryFault(last, c).None? then Good(front, c) + [last] else Good(front, c)
  }

  ghost function Bad(entries: seq<Entry>, c: Context): (bad: seq<Entry>)
    ensures forall e | e in bad :: e in entries && EntryFault(e, c).Some?
    ensures |bad| + |Good(entries, c)| == |entries|
  {
    if |entries| == 0 then []
    else
      var front, last := entries[..|entries| - 1], entries[|entries| - 1];
      if EntryFault(last, c).Some? then Bad(front, c) + [last] else Bad(front, c)
  }

  /** Every good entry answered by a call, numbered in order; every bad one by an issue. */
  ghost predicate Answers(tally: Tally, entries: seq<Entry>, c: Context) {
    CallsAnswer(tally.calls, Good(entries, c), c) && IssuesAnswer(tally.issues, Bad(entries, c), c)
  }

  ghost predicate CallsAnswer(calls: seq<ParsedCall>, good: seq<Entry>, c: Context) {
    && |calls| == |good|
    && forall i | 0 <= i < |good| ::
         good[i].Call? && Fault(good[i].payload, c).None? && calls[i] == CallOf(good[i].payload, c, i + 1)
  }

  ghost predicate IssuesAnswer(issues: seq<CallIssue>, bad: seq<Entry>, c: Context) {
    && |issues| == |bad|
    && forall i | 0 <= i < |bad| ::
         EntryFault(bad[i], c).Some? && issues[i] == CallIssue(EntryFault(bad[i], c).value, bad[i].index)
  }

  ghost function AddEntry(tally: Tally, entry: Entry, c: Context): Tally {
    match entry
    case Broken(code, index) => tally.(issues := tally.issues + [CallIssue(code, index)])
    case Call(payload, index) => AddCall(tally, payload, c, index)
  }

  lemma OneMoreEntry(entries: seq<Entry>, entry: Entry, c: Context)
    ensures var all := entries + [entry];
      && Good(all, c) == (if EntryFault(entry, c).None? then Good(entries, c) + [entry] else Good(entries, c))
      && Bad(all, c) == (if EntryFault(entry, c).Some? then Bad(entries, c) + [entry] else Bad(entries, c))
  {
    hide EntryFault;
    var all := entries + [entry];
    assert all[..|all| - 1] == entries && all[|all| - 1] == entry;
  }

  lemma OneMoreCall(calls: seq<ParsedCall>, good: seq<Entry>, entry: Entry, c: Context)
    requires CallsAnswer(calls, good, c) && entry.Call? && Fault(entry.payload, c).None?
    ensures CallsAnswer(calls + [CallOf(entry.payload, c, |calls| + 1)], good + [entry], c)
  {
    hide Fault, CallOf;
  }

  lemma OneMoreIssue(issues: seq<CallIssue>, bad: seq<Entry>, entry: Entry, c: Context)
    requires IssuesAnswer(issues, bad, c) && EntryFault(entry, c).Some?
    ensures IssuesAnswer(issues + [CallIssue(EntryFault(entry, c).value, entry.index)], bad + [entry], c)
  {
    hide EntryFault;
  }

  lemma AnswersOneMore(tally: Tally, entries: seq<Entry>, entry: Entry, c: Context)
    requires Answers(tally, entries, c)
    ensures Answers(AddEntry(tally, entry, c), entries + [entry], c)
  {
    hide Fault, CallOf, Good, Bad, CallsAnswer, IssuesAnswer;
    OneMoreEntry(entries, entry, c);
    if EntryFault(entry, c).None? {
      OneMoreCall(tally.calls, Good(entries, c), entry, c);
    } else {
      OneMoreIssue(tally.issues, Bad(entries, c), entry, c);
    }
  }

  lemma {:induction false} AnswersCalls(tally: Tally, entries: seq<Entry>, payloads: seq<Members>, c: Context,
                                        index: nat, n: nat)
    requires n <= |payloads| && Answers(tally, entries, c)
    ensures Answers(AddCalls(tally, payloads, c, index, n),
                    entries + seq(n, j requires 0 <= j < n => Call(payloads[j], index)), c)
  {
    hide Answers, AddCall;
    var before := seq(n, j requires 0 <= j < n => Call(payloads[j], index));
    if n == 0 {
      assert entries + before == entries;
    } else {
      AnswersCalls(tally, entries, payloads, c, index, n - 1);
      var front := seq(n - 1, j requires 0 <= j < n - 1 => Call(payloads[j], index));
      AnswersOneMore(AddCalls(tally, payloads, c, index, n - 1), entries + front, Call(payloads[n - 1], index), c);
      assert entries + front + [Call(payloads[n - 1], index)] == entries + before;
    }
  }

  lemma AnswersCandidate(before: Tally, entries: seq<Entry>, candidate: Candidate, c: Context, index: nat)
    requires Answers(before, entries, c)
    ensures Answers(AddCandidate(before, candidate, c, index), entries + EntriesOf(candidate, index), c)
  {
    hide Answers, AddCalls, NormalizeShape;
    if candidate.Undecodable? {
      AnswersOneMore(before, entries, Broken("invalid_json", index), c);
    } else if NormalizeShape(candidate.payload).None? {
      AnswersOneMore(before, entries, Broken("unrecognized_shape", index), c);
    } else {
      var payloads := NormalizeShape(candidate.payload).value;
      AnswersCalls(before, entries, payloads, c, index, |payloads|);
    }
  }

  /** The parser's answer is that of its entries, one for one and in order. */
  lemma {:induction false} EveryEntryIsAnswered(candidates: seq<Candidate>, c: Context, n: nat)
    requires n <= |candidates|
    ensures Answers(TallyUpTo(candidates, c, n), Entries(candidates, n), c)
  {
    hide Answers, AddCandidate, EntriesOf, TallyUpTo, Entries;
    OneMoreCandidate(candidates, c, n);
    if n == 0 {
      NothingToAnswer(c);
    } else {
      EveryEntryIsAnswered(candidates, c, n - 1);
      AnswersCandidate(TallyUpTo(candidates, c, n - 1), Entries(candidates, n - 1), candidates[n - 1], c, n - 1);
    }
  }

  lemma OneMoreCandidate(candidates: seq<Candidate>, c: Context, n: nat)
    requires n <= |candidates|
    ensures n == 0 ==> TallyUpTo(candidates, c, n) == Tally([], []) && Entries(candidates, n) == []
    ensures n > 0 ==>
      && TallyUpTo(candidates, c, n)
         == AddCandidate(TallyUpTo(candidates, c, n - 1), candidates[n - 1], c, n - 1)
      && Entries(candidates, n) == Entries(candidates, n - 1) + EntriesOf(candidates[n - 1], n - 1)
  {
    hide AddCandidate, EntriesOf;
  }

  lemma NothingToAnswer(c: Context)
    ensures Answers(Tally([], []), [], c)
  {}

  // ---------------------------------------------------------------- accounting

  /** Undecodable candidates, unrecognised shapes and call entries of the first `n` candidates. */
  ghost function Demand(candidates: seq<Candidate>, n: nat): (nat, nat, nat)
    requires n <= |candidates|
  {
    if n == 0 then (0, 0, 0)
    else
      var (broken, shapeless, calls) := Demand(candidates, n - 1);
      var candidate := candidates[n - 1];
      if candidate.Undecodable? then (broken + 1, shapeless, calls)
      else if NormalizeShape(candidate.payload).None? then (broken, shapeless + 1, calls)
      else (broken, shapeless, calls + |NormalizeShape(candidate.payload).value|)
  }

  lemma {:induction false} EntriesCounted(candidates: seq<Candidate>, n: nat)
    requires n <= |candidates|
    ensures var (broken, shapeless, calls) := Demand(candidates, n);
      |Entries(candidates, n)| == broken + shapeless + calls
    ensures n <= |Entries(candidates, n)|
  {
    hide NormalizeShape;
    if n > 0 {
      EntriesCounted(candidates, n - 1);
      if candidates[n - 1].Decoded? { ShapeIsNotEmpty(candidates[n - 1].payload); }
    }
  }

  lemma ShapeIsNotEmpty(payload: Json)
    ensures NormalizeShape(payload).Some? ==> |NormalizeShape(payload).value| > 0
  {}

  /** Nothing is dropped: calls and issues together are all there was to answer. */
  lemma CallsAndIssuesAccountForEverything(text: string, c: Context)
    requires Lawful(c.matcher)
    ensures var result := Parse(text, c);
      var candidates := AllCandidates(text, c);
      var (broken, shapeless, calls) := Demand(candidates, |candidates|);
      |result.calls| + |result.issues| == broken + shapeless + calls
  {
    hide AllCandidates, RemainingText, TallyUpTo;
    var candidates := AllCandidates(text, c);
    EveryEntryIsAnswered(candidates, c, |candidates|);
    EntriesCounted(candidates, |candidates|);
  }

  /** The four statuses mean what the documentation says they mean. */
  lemma StatusMeansWhatItSays(text: string, c: Context)
    requires Lawful(c.matcher)
    ensures var result := Parse(text, c);
      var candidates := AllCandidates(text, c);
      var entries := Entries(candidates, |candidates|);
      && (result.status == NoToolCalls <==> |candidates| == 0)
      && (result.status == AllParsed <==>
            |candidates| > 0 && forall i | 0 <= i < |entries| :: EntryFault(entries[i], c).None?)
      && (result.status == Failed <==>
            |candidates| > 0 && forall i | 0 <= i < |entries| :: EntryFault(entries[i], c).Some?)
      && (result.status == Partial <==>
            && (exists i | 0 <= i < |entries| :: EntryFault(entries[i], c).None?)
            && (exists i | 0 <= i < |entries| :: EntryFault(entries[i], c).Some?))
  {
    hide AllCandidates, RemainingText, TallyUpTo, EntryFault;
    var candidates := AllCandidates(text, c);
    var entries := Entries(candidates, |candidates|);
    EveryEntryIsAnswered(candidates, c, |candidates|);
    EntriesCounted(candidates, |candidates|);
    AllOrSome(entries, c);
  }

  lemma {:induction false} AllOrSome(entries: seq<Entry>, c: Context)
    ensures |Good(entries, c)| == 0 <==> forall i | 0 <= i < |entries| :: EntryFault(entries[i], c).Some?
    ensures |Bad(entries, c)| == 0 <==> forall i | 0 <= i < |entries| :: EntryFault(entries[i], c).None?
  {
    hide EntryFault;
    if |entries| > 0 { AllOrSome(entries[..|entries| - 1], c); }
  }

  ghost predicate Permitted(call: ParsedCall, tool: Tool, c: Context) {
    && tool in c.tools && tool.name == call.name
    && (tool.inputSchema != [] ==>
          SchemaIssues.Validate(Obj(tool.inputSchema), Obj(call.arguments), c.library) == [])
  }

  lemma FaultlessIsPermitted(payload: Members, c: Context, number: nat) returns (tool: Tool)
    requires Fault(payload, c).None?
    ensures Permitted(CallOf(payload, c, number), tool, c)
  {
    hide SchemaIssues.Validate, Strip;
    tool := FindTool(c.tools, Lookup(payload, TOOL_CALL_NAME_KEY).s).value;
  }

  lemma GoodIsCall(calls: seq<ParsedCall>, good: seq<Entry>, c: Context, i: nat)
    requires CallsAnswer(calls, good, c) && i < |calls|
    ensures |calls| == |good| && good[i].Call? && Fault(good[i].payload, c).None?
    ensures calls[i] == CallOf(good[i].payload, c, i + 1)
  {
    hide Fault, CallOf;
  }

  /** A reported call names a declared tool, and its arguments pass that tool's schema without issue. */
  lemma ReportedCallsAreValid(text: string, c: Context, i: nat)
    requires Lawful(c.matcher) && i < |Parse(text, c).calls|
    ensures exists tool :: Permitted(Parse(text, c).calls[i], tool, c)
  {
    hide AllCandidates, RemainingText, TallyUpTo, Entries, Fault, CallOf, Permitted, Good, Bad, CallsAnswer,
      IssuesAnswer;
    var candidates := AllCandidates(text, c);
    EveryEntryIsAnswered(candidates, c, |candidates|);
    var good := Good(Entries(candidates, |candidates|), c);
    GoodIsCall(Parse(text, c).calls, good, c, i);
    var tool := FaultlessIsPermitted(good[i].payload, c, i + 1);
  }
}
