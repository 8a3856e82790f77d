/**
  The incremental reader of server-sent events. Text arrives in pieces; an event is complete at the
  first blank line, and its `data:` lines are decoded as they are found.
  */
module EventStream {
  import opened Wrappers
  import opened JsonValues
  import opened Whitespace

  const DATA_FIELD := "data:"
  const DONE_MARK := "[DONE]"

  datatype Chunk = Parsed(value: Json) | Malformed(data: string)

  /** JSON decoding, and whether a first-chunk callback is given. */
  datatype Reader = Reader(loads: string -> Option<Json>, hasCallback: bool)

  /**
    What the reader holds: unfinished text, the chunks so far, and how often the callback ran. It has
    stopped when `[DONE]` was seen, or when a chunk of an unexpected shape made `_has_content` raise.
    */
  datatype State = State(buffer: string, chunks: seq<Chunk>, sawDone: bool, raised: bool, fired: nat)
  {
    predicate Stopped() { sawDone || raised }
  }

  const START := State("", [], false, false, 0)

  // ---------------------------------------------------------------- text

  /** The first blank line. */
  function Find(s: string): (r: Option<nat>)
    ensures r.Some? ==> r.value + 2 <= |s| && s[r.value] == '\n' && s[r.value + 1] == '\n'
    ensures r.Some? ==> forall i | 0 <= i < r.value :: !(s[i] == '\n' && s[i + 1] == '\n')
    ensures r.None? ==> forall i | 0 <= i < |s| - 1 :: !(s[i] == '\n' && s[i + 1] == '\n')
  {
    if |s| < 2 then None
    else if s[0] == '\n' && s[1] == '\n' then Some(0)
    else
      match Find(s[1..])
      case Some(k) =>
        assert forall i | 0 < i < k + 1 :: s[i] == s[1..][i - 1] && s[i + 1] == s[1..][i];
        Some(k + 1)
      case None =>
        assert forall i | 0 < i < |s| - 1 :: s[i] == s[1..][i - 1] && s[i + 1] == s[1..][i];
        None
  }

  /** The characters at which `str.splitlines` ends a line. */
  predicate IsLineEnd(c: char) {
    || c == '\n' || c == '\r' || '\U{0B}' <= c <= '\U{0C}' || '\U{1C}' <= c <= '\U{1E}'
    || c == '\U{85}' || c == '\U{2028}' || c == '\U{2029}'
  }

  /** The length of the first line, without its end. */
  function LineLength(s: string): (n: nat)
    ensures n <= |s|
  {
    if s == "" || IsLineEnd(s[0]) then 0 else 1 + LineLength(s[1..])
  }

  /** `event.splitlines()`; a carriage return and newline end one line together. */
  function Lines(s: string): seq<string>
    decreases |s|
  {
    if s == "" then []
    else
      var n := LineLength(s);
      if n == |s| then [s]
      else
        var end := if s[n] == '\r' && n + 1 < |s| && s[n + 1] == '\n' then n + 2 else n + 1;
        [s[..n]] + Lines(s[end..])
  }

  /** What a line carries: None unless it is a data line. */
  function Payload(line: string): Option<string> {
    if DATA_FIELD <= line then Some(Strip(line[|DATA_FIELD|..])) else None
  }

  // ---------------------------------------------------------------- content

  predicate IsTrue(v: Json) {
    match v
    case Null => false
    case Bool(b) => b
    case Int(i) => i != 0
    case Float(x) => x != 0.0
    case Str(s) => s != ""
    case Arr(items) => items != []
    case Obj(members) => members != []
  }

  /** Whether one choice carries text; None where Python raises. */
  function ChoiceHasContent(choice: Json): Option<bool> {
    if !choice.Obj? then None
    else
      match Get(choice.members, "delta")
      case Some(Obj(delta)) => Some(Get(delta, "content").Some? && IsTrue(Lookup(delta, "content")))
      case Some(other) => if IsTrue(other) then None else Some(false)
      case None => Some(false)
  }

  function AnyHasContent(choices: seq<Json>): Option<bool> {
    if choices == [] then Some(false)
    else
      match ChoiceHasContent(choices[0])
      case None => None
      case Some(true) => Some(true)
      case Some(false) => AnyHasContent(choices[1..])
  }

  /** `_has_content`. Strings and dictionaries of choices hold strings, which have no `get`. */
  function HasContent(chunk: Json): Option<bool> {
    if !chunk.Obj? then None
    else
      match Get(chunk.members, "choices")
      case None => Some(false)
      case Some(Arr(choices)) => AnyHasContent(choices)
      case Some(Str(s)) => if s == "" then Some(false) else None
      case Some(Obj(members)) => if members == [] then Some(false) else None
      case Some(_) => None
  }

  // ---------------------------------------------------------------- the reader, step by step

  function StepPayload(reader: Reader, st: State, data: string): State {
    if st.Stopped() then st
    else if data == DONE_MARK then st.(sawDone := true, buffer := "")
    else
      match reader.loads(data)
      case None => st.(chunks := st.chunks + [Malformed(data)])
      case Some(value) =>
        var grown := st.(chunks := st.chunks + [Parsed(value)]);
        if reader.hasCallback && st.fired == 0 then
          match HasContent(value)
          case None => grown.(raised := true, buffer := "")
          case Some(content) => if content then grown.(fired := grown.fired + 1) else grown
        else grown
  }

  function StepLines(reader: Reader, st: State, lines: seq<string>, n: nat): State
    requires n <= |lines|
  {
    if n == 0 then st
    else
      var before := StepLines(reader, st, lines, n - 1);
      match Payload(lines[n - 1])
      case None => before
      case Some(data) => StepPayload(reader, before, data)
  }

  /** Consumes every complete event of the buffer. */
  function Drain(reader: Reader, st: State): State
    decreases |st.buffer|
  {
    match Find(st.buffer)
    case None => st
    case Some(k) =>
      if st.Stopped() then st
      else
        var lines := Lines(st.buffer[..k]);
        var after := StepLines(reader, st.(buffer := st.buffer[k + 2..]), lines, |lines|);
        BufferOnlyShrinks(reader, st.(buffer := st.buffer[k + 2..]), lines, |lines|);
        Drain(reader, after)
  }

  lemma {:induction false} BufferOnlyShrinks(reader: Reader, st: State, lines: seq<string>, n: nat)
    requires n <= |lines|
    ensures var after := StepLines(reader, st, lines, n); after.buffer == "" || after.buffer == st.buffer
  {
    if n > 0 { BufferOnlyShrinks(reader, st, lines, n - 1); }
  }

  function Feed(reader: Reader, st: State, raw: string): State {
    if st.Stopped() then st else Drain(reader, st.(buffer := st.buffer + raw))
  }

  function Run(reader: Reader, pieces: seq<string>, n: nat): State
    requires n <= |pieces|
  {
    if n == 0 then START else Feed(reader, Run(reader, pieces, n - 1), pieces[n - 1])
  }

  lemma {:induction false} StoppedStaysStopped(reader: Reader, pieces: seq<string>, n: nat, m: nat)
    requires n <= m <= |pieces| && Run(reader, pieces, n).Stopped()
    ensures Run(reader, pieces, m) == Run(reader, pieces, n)
  {
    if n < m { StoppedStaysStopped(reader, pieces, n, m - 1); }
  }

  lemma {:induction false} StoppedSkipsLines(reader: Reader, st: State, lines: seq<string>, n: nat, m: nat)
    requires n <= m <= |lines| && StepLines(reader, st, lines, n).Stopped()
    ensures StepLines(reader, st, lines, m) == StepLines(reader, st, lines, n)
  {
    if n < m { StoppedSkipsLines(reader, st, lines, n, m - 1); }
  }

  /** The inner loops: the lines of one event. The answer is the state after them. */
  method ReadLines(reader: Reader, st: State, event: string) returns (after: State)
    requires !st.Stopped()
    ensures after == StepLines(reader, st, Lines(event), |Lines(event)|)
  {
    hide HasContent, Payload;
    var lines := Lines(event);
    var chunks, fired := st.chunks, st.fired;
    for i := 0 to |lines|
      invariant StepLines(reader, st, lines, i) == st.(chunks := chunks, fired := fired)
    {
      var payload := Payload(lines[i]);
      if payload.None? { continue; }
      var data := payload.value;
      if data == DONE_MARK {
        StoppedSkipsLines(reader, st, lines, i + 1, |lines|);
        return st.(chunks := chunks, fired := fired, sawDone := true, buffer := "");
      }
      var parsed := reader.loads(data);
      if parsed.None? {
        chunks := chunks + [Malformed(data)];
        continue;
      }
      chunks := chunks + [Parsed(parsed.value)];
      if reader.hasCallback && fired == 0 {
        var content := HasContent(parsed.value);
        if content.None? {
          StoppedSkipsLines(reader, st, lines, i + 1, |lines|);
          return st.(chunks := chunks, fired := fired, raised := true, buffer := "");
        }
        if content.value { fired := fired + 1; }
      }
    }
    after := st.(chunks := chunks, fired := fired);
  }

  /** `read_sse`. */
  method ReadSse(reader: Reader, pieces: seq<string>) returns (st: State)
    ensures st == Run(reader, pieces, |pieces|)
  {
    hide StepLines, Lines, Find;
    st := START;
    for i := 0 to |pieces|
      invariant Run(reader, pieces, i) == st && !st.Stopped()
    {
      ghost var fed := Feed(reader, st, pieces[i]);
      st := st.(buffer := st.buffer + pieces[i]);
      while Find(st.buffer).Some?
        invariant !st.Stopped() && Drain(reader, st) == fed
        decreases |st.buffer|
      {
        var k := Find(st.buffer).value;
        var event := st.buffer[..k];
        st := st.(buffer := st.buffer[k + 2..]);
        BufferOnlyShrinks(reader, st, Lines(event), |Lines(event)|);
        st := ReadLines(reader, st, event);
        if st.Stopped() {
          StoppedStaysStopped(reader, pieces, i + 1, |pieces|);
          return;
        }
      }
    }
  }
}
