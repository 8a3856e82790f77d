/** What the reader returns depends on the text alone, and on nothing after the first `[DONE]`. */
module EventStreamTheorems {
  import opened Wrappers
  import opened JsonValues
  import opened EventStream
  import opened Whitespace

  // ---------------------------------------------------------------- framing

  ghost function Joined(pieces: seq<string>, n: nat): string
    requires n <= |pieces|
  {
    if n == 0 then "" else Joined(pieces, n - 1) + pieces[n - 1]
  }

  /** The first blank line stays the first when text is added behind it. */
  lemma FindIsStable(a: string, b: string)
    requires Find(a).Some?
    ensures Find(a + b) == Find(a)
  {
    var k := Find(a).value;
    assert (a + b)[k] == a[k] && (a + b)[k + 1] == a[k + 1];
    forall i | 0 <= i < k ensures !((a + b)[i] == '\n' && (a + b)[i + 1] == '\n') {
      assert (a + b)[i] == a[i] && (a + b)[i + 1] == a[i + 1];
    }
  }

  /** Draining in two steps is draining at once. */
  lemma {:induction false} DrainInTwoSteps(reader: Reader, st: State, more: string)
    requires !st.Stopped()
    ensures Drain(reader, st.(buffer := st.buffer + more)) == Feed(reader, Drain(reader, st), more)
    decreases |st.buffer|
  {
    hide Find, Lines, StepLines;
    if Find(st.buffer).Some? {
      FindIsStable(st.buffer, more);
      var k := FoundAt(st.buffer);
      var rest := st.buffer[k + 2..];
      assert (st.buffer + more)[..k] == st.buffer[..k];
      assert (st.buffer + more)[k + 2..] == rest + more;
      var lines := Lines(st.buffer[..k]);
      var after := StepLines(reader, st.(buffer := rest), lines, |lines|);
      LinesKeepTheRest(reader, st, rest, more, lines, |lines|);
      BufferOnlyShrinks(reader, st.(buffer := rest), lines, |lines|);
      if after.Stopped() {
        DrainStopped(reader, after);
      } else {
        DrainInTwoSteps(reader, after, more);
      }
    }
  }

  lemma FoundAt(s: string) returns (k: nat)
    requires Find(s).Some?
    ensures k == Find(s).value && k + 2 <= |s|
  {
    k := Find(s).value;
  }

  lemma DrainStopped(reader: Reader, st: State)
    requires st.Stopped()
    ensures Drain(reader, st) == st
  {
    hide Find, Lines, StepLines;
  }

  /** The lines of an event do not look at the text behind it. */
  lemma {:induction false} LinesKeepTheRest(reader: Reader, st: State, rest: string, more: string, lines: seq<string>,
                                            n: nat)
    requires n <= |lines| && !st.Stopped()
    ensures var a := StepLines(reader, st.(buffer := rest), lines, n);
      var b := StepLines(reader, st.(buffer := rest + more), lines, n);
      b == (if a.Stopped() then a else a.(buffer := rest + more)) && (!a.Stopped() ==> a.buffer == rest)
  {
    hide Payload, HasContent;
    if n > 0 { LinesKeepTheRest(reader, st, rest, more, lines, n - 1); }
  }

  lemma {:induction false} RunIsOnePass(reader: Reader, pieces: seq<string>, n: nat)
    requires n <= |pieces|
    ensures Run(reader, pieces, n) == Drain(reader, START.(buffer := Joined(pieces, n)))
  {
    hide Lines, StepLines;
    if n > 0 {
      hide Drain;
      RunIsOnePass(reader, pieces, n - 1);
      var before := START.(buffer := Joined(pieces, n - 1));
      DrainInTwoSteps(reader, before, pieces[n - 1]);
      assert before.(buffer := before.buffer + pieces[n - 1]) == START.(buffer := Joined(pieces, n));
    }
  }

  /** However the text is cut, the reader ends in the same state. */
  lemma FramingDoesNotMatter(reader: Reader, pieces: seq<string>, others: seq<string>)
    requires Joined(pieces, |pieces|) == Joined(others, |others|)
    ensures Run(reader, pieces, |pieces|) == Run(reader, others, |others|)
  {
    hide Drain, Run;
    RunIsOnePass(reader, pieces, |pieces|);
    RunIsOnePass(reader, others, |others|);
  }

  /** Once stopped, further text changes nothing. */
  lemma NothingAfterDoneMatters(reader: Reader, pieces: seq<string>, others: seq<string>, more: string)
    requires Run(reader, pieces, |pieces|).Stopped() && Joined(others, |others|) == Joined(pieces, |pieces|) + more
    ensures Run(reader, others, |others|) == Run(reader, pieces, |pieces|)
  {
    hide Drain;
    var longer := pieces + [more];
    RunPrefix(reader, pieces, longer, |pieces|);
    assert Joined(longer, |longer|) == Joined(others, |others|) by { JoinedPrefix(pieces, longer, |pieces|); }
    FramingDoesNotMatter(reader, longer, others);
  }

  lemma {:induction false} RunPrefix(reader: Reader, a: seq<string>, b: seq<string>, n: nat)
    requires n <= |a| <= |b| && b[..|a|] == a
    ensures Run(reader, a, n) == Run(reader, b, n)
  {
    hide Feed;
    if n > 0 {
      RunPrefix(reader, a, b, n - 1);
      assert b[n - 1] == b[..|a|][n - 1];
    }
  }

  lemma {:induction false} JoinedPrefix(a: seq<string>, b: seq<string>, n: nat)
    requires n <= |a| <= |b| && b[..|a|] == a
    ensures Joined(a, n) == Joined(b, n)
  {
    if n > 0 {
      JoinedPrefix(a, b, n - 1);
      assert b[n - 1] == b[..|a|][n - 1];
    }
  }

  // ---------------------------------------------------------------- what is returned

  ghost function PayloadsOfLines(lines: seq<string>): seq<string> {
    if |lines| == 0 then []
    else
      var front := PayloadsOfLines(lines[..|lines| - 1]);
      match Payload(lines[|lines| - 1])
      case None => front
      case Some(data) => front + [data]
  }

  /** The data of every complete event of a text, in order; an event without its blank line is not complete. */
  ghost function Payloads(text: string): seq<string>
    decreases |text|
  {
    match Find(text)
    case None => []
    case Some(k) => PayloadsOfLines(Lines(text[..k])) + Payloads(text[k + 2..])
  }

  ghost function ChunkOf(reader: Reader, data: string): Chunk {
    match reader.loads(data)
    case Some(value) => Parsed(value)
    case None => Malformed(data)
  }

  ghost predicate CarriesContent(chunk: Chunk) { chunk.Parsed? && HasContent(chunk.value) == Some(true) }

  /** The payload `n` is decoded before any `[DONE]` and any content, and its shape makes the content check raise. */
  ghost predicate RaisesAt(reader: Reader, payloads: seq<string>, n: nat)
    requires n < |payloads|
  {
    && reader.hasCallback && (forall i | 0 <= i <= n :: payloads[i] != DONE_MARK)
    && ChunkOf(reader, payloads[n]).Parsed? && HasContent(ChunkOf(reader, payloads[n]).value).None?
    && forall i | 0 <= i < n :: !CarriesContent(ChunkOf(reader, payloads[i]))
  }

  /** The chunks are those of the first `n` payloads, and the callback ran once if one carries content. */
  ghost predicate Read(reader: Reader, payloads: seq<string>, n: nat, st: State)
    requires n <= |payloads|
  {
    && |st.chunks| == n
    && (forall i | 0 <= i < n :: payloads[i] != DONE_MARK && st.chunks[i] == ChunkOf(reader, payloads[i]))
    && st.fired == (if reader.hasCallback && exists i :: 0 <= i < n && CarriesContent(st.chunks[i]) then 1 else 0)
    && forall i | 0 <= i < n :: !RaisesAt(reader, payloads, i)
  }

  /** What the payloads make of the reader: all of them were read, or it stopped at one of them. */
  ghost predicate Consistent(reader: Reader, payloads: seq<string>, st: State) {
    && !(st.sawDone && st.raised)
    && (!st.Stopped() ==> Read(reader, payloads, |payloads|, st))
    && (st.sawDone ==> exists n :: 0 <= n < |payloads| && payloads[n] == DONE_MARK && Read(reader, payloads, n, st))
    && (st.raised ==> exists n :: 0 <= n < |payloads| && Raised(reader, payloads, n, st))
  }

  /** The payload `n` was decoded and kept, but its shape made the content check raise. */
  ghost predicate Raised(reader: Reader, payloads: seq<string>, n: nat, st: State)
    requires n < |payloads|
  {
    && |st.chunks| == n + 1 && Read(reader, payloads, n, st.(chunks := st.chunks[..n])) && st.fired == 0
    && st.chunks[n] == ChunkOf(reader, payloads[n]) && RaisesAt(reader, payloads, n)
  }

  /** What was read of some payloads is read of them when more follow. */
  lemma StillRead(reader: Reader, payloads: seq<string>, more: seq<string>, n: nat, st: State)
    requires n <= |payloads| && Read(reader, payloads, n, st)
    ensures Read(reader, payloads + more, n, st)
  {
    hide CarriesContent, ChunkOf;
    var longer := payloads + more;
    forall i | 0 <= i < n
      ensures longer[i] == payloads[i] && (RaisesAt(reader, longer, i) ==> RaisesAt(reader, payloads, i))
    {
      RaisesWithMore(reader, payloads, more, i);
    }
  }

  lemma RaisesWithMore(reader: Reader, payloads: seq<string>, more: seq<string>, n: nat)
    requires n < |payloads|
    ensures RaisesAt(reader, payloads + more, n) <==> RaisesAt(reader, payloads, n)
  {
    hide CarriesContent, ChunkOf, HasContent;
    assert forall i | 0 <= i <= n :: (payloads + more)[i] == payloads[i];
  }

  lemma ReadOneMore(reader: Reader, payloads: seq<string>, st: State, data: string)
    requires Consistent(reader, payloads, st)
    ensures Consistent(reader, payloads + [data], StepPayload(reader, st, data))
  {
    if st.Stopped() {
      StoppedStaysConsistent(reader, payloads, st, [data]);
    } else {
      hide HasContent, Raised;
      var longer := payloads + [data];
      var after := StepPayload(reader, st, data);
      StillRead(reader, payloads, [data], |payloads|, st);
      if data == DONE_MARK {
        hide CarriesContent, RaisesAt;
        assert longer[|payloads|] == DONE_MARK && Read(reader, longer, |payloads|, after);
      } else if !after.raised {
        ReadChunk(reader, payloads, st, data);
      } else {
        RaisingChunk(reader, payloads, st, data);
      }
    }
  }

  lemma ReadChunk(reader: Reader, payloads: seq<string>, st: State, data: string)
    requires !st.Stopped() && Read(reader, payloads, |payloads|, st) && data != DONE_MARK
    requires !StepPayload(reader, st, data).raised
    ensures Read(reader, payloads + [data], |payloads| + 1, StepPayload(reader, st, data))
  {
    hide HasContent;
    var after := StepPayload(reader, st, data);
    var n, longer := |payloads|, payloads + [data];
    assert after.chunks == st.chunks + [ChunkOf(reader, data)];
    assert forall i | 0 <= i < n :: after.chunks[i] == st.chunks[i] && longer[i] == payloads[i];
    if i :| 0 <= i < n && CarriesContent(st.chunks[i]) {
      assert CarriesContent(after.chunks[i]) && CarriesContent(ChunkOf(reader, longer[i]));
    }
    if CarriesContent(ChunkOf(reader, data)) { assert CarriesContent(after.chunks[n]); }
    assert !RaisesAt(reader, longer, n);
    StillRead(reader, payloads, [data], n, st);
  }

  lemma RaisingChunk(reader: Reader, payloads: seq<string>, st: State, data: string)
    requires !st.Stopped() && Read(reader, payloads, |payloads|, st) && StepPayload(reader, st, data).raised
    ensures Raised(reader, payloads + [data], |payloads|, StepPayload(reader, st, data))
  {
    hide HasContent;
    var after := StepPayload(reader, st, data);
    var n, longer := |payloads|, payloads + [data];
    StillRead(reader, payloads, [data], n, st);
    assert after.chunks[..n] == st.chunks;
    forall i | 0 <= i < n ensures longer[i] != DONE_MARK && !CarriesContent(ChunkOf(reader, longer[i])) {
      assert longer[i] == payloads[i] && st.chunks[i] == ChunkOf(reader, payloads[i]);
    }
    assert Read(reader, longer, n, after.(chunks := after.chunks[..n]));
  }

  lemma {:induction false} LinesAreConsistent(reader: Reader, payloads: seq<string>, st: State, lines: seq<string>,
                                              n: nat)
    requires n <= |lines| && Consistent(reader, payloads, st)
    ensures Consistent(reader, payloads + PayloadsOfLines(lines[..n]), StepLines(reader, st, lines, n))
  {
    hide Payload, Consistent, StepPayload;
    if n == 0 {
      assert payloads + [] == payloads;
    } else {
      LinesAreConsistent(reader, payloads, st, lines, n - 1);
      assert lines[..n][..n - 1] == lines[..n - 1] && lines[..n][n - 1] == lines[n - 1];
      var front := PayloadsOfLines(lines[..n - 1]);
      if Payload(lines[n - 1]).Some? {
        var data := Payload(lines[n - 1]).value;
        ReadOneMore(reader, payloads + front, StepLines(reader, st, lines, n - 1), data);
        assert payloads + (front + [data]) == (payloads + front) + [data];
      }
    }
  }

  lemma {:induction false} DrainIsConsistent(reader: Reader, payloads: seq<string>, st: State)
    requires !st.Stopped() && Consistent(reader, payloads, st)
    ensures Consistent(reader, payloads + Payloads(st.buffer), Drain(reader, st))
    decreases |st.buffer|
  {
    hide Find, Lines, StepLines, Consistent, PayloadsOfLines;
    if Find(st.buffer).None? {
      assert payloads + [] == payloads;
    } else {
      var k := FoundAt(st.buffer);
      var rest := st.buffer[k + 2..];
      var next := st.(buffer := rest);
      var lines := Lines(st.buffer[..k]);
      SameButBuffer(reader, payloads, st, next);
      LinesAreConsistent(reader, payloads, next, lines, |lines|);
      assert lines[..|lines|] == lines;
      var after := StepLines(reader, next, lines, |lines|);
      var front := payloads + PayloadsOfLines(lines);
      BufferOnlyShrinks(reader, next, lines, |lines|);
      assert payloads + (PayloadsOfLines(lines) + Payloads(rest)) == front + Payloads(rest);
      if after.Stopped() {
        DrainStopped(reader, after);
        StoppedStaysConsistent(reader, front, after, Payloads(rest));
      } else {
        UnstoppedKeepsBuffer(reader, next, lines, |lines|);
        DrainIsConsistent(reader, front, after);
      }
    }
  }

  lemma SameButBuffer(reader: Reader, payloads: seq<string>, st: State, other: State)
    requires Consistent(reader, payloads, st) && other == st.(buffer := other.buffer)
    ensures Consistent(reader, payloads, other)
  {
    hide CarriesContent, RaisesAt;
    if st.sawDone {
      var n :| 0 <= n < |payloads| && payloads[n] == DONE_MARK && Read(reader, payloads, n, st);
      assert Read(reader, payloads, n, other);
    }
    if st.raised {
      var n :| 0 <= n < |payloads| && Raised(reader, payloads, n, st);
      assert Raised(reader, payloads, n, other);
    }
  }

  lemma {:induction false} UnstoppedKeepsBuffer(reader: Reader, st: State, lines: seq<string>, n: nat)
    requires n <= |lines| && !StepLines(reader, st, lines, n).Stopped()
    ensures StepLines(reader, st, lines, n).buffer == st.buffer
  {
    hide Payload, HasContent;
    if n > 0 { UnstoppedKeepsBuffer(reader, st, lines, n - 1); }
  }

  lemma StoppedStaysConsistent(reader: Reader, payloads: seq<string>, st: State, more: seq<string>)
    requires Consistent(reader, payloads, st) && st.Stopped()
    ensures Consistent(reader, payloads + more, st)
  {
    hide CarriesContent, RaisesAt;
    if st.sawDone {
      var n :| 0 <= n < |payloads| && payloads[n] == DONE_MARK && Read(reader, payloads, n, st);
      assert (payloads + more)[n] == DONE_MARK;
      StillRead(reader, payloads, more, n, st);
    } else {
      var n :| 0 <= n < |payloads| && Raised(reader, payloads, n, st);
      assert (payloads + more)[n] == payloads[n];
      StillRead(reader, payloads, more, n, st.(chunks := st.chunks[..n]));
      RaisesWithMore(reader, payloads, more, n);
      assert Raised(reader, payloads + more, n, st);
    }
  }

  /**
    The reader returns the decoded payloads of the complete events before the first `[DONE]`, says
    whether there was one, and ran the callback once if one of those chunks carries content, else
    never. It raises exactly when, with a callback, some payload before any content and any `[DONE]`
    has a shape the content check does not expect.
    */
  lemma ReaderReturnsThePayloads(reader: Reader, pieces: seq<string>)
    ensures var st := Run(reader, pieces, |pieces|);
      var payloads := Payloads(Joined(pieces, |pieces|));
      && Consistent(reader, payloads, st) && st.fired <= 1
      && (st.sawDone <==> DONE_MARK in payloads && !st.raised)
      && (st.raised <==> exists n :: 0 <= n < |payloads| && RaisesAt(reader, payloads, n))
  {
    var text := Joined(pieces, |pieces|);
    var payloads := Payloads(text);
    RunIsOnePass(reader, pieces, |pieces|);
    hide Run, Drain, Payloads, HasContent;
    var start := START.(buffer := text);
    DrainIsConsistent(reader, [], start);
    assert [] + payloads == payloads;
    OutcomeIs(reader, payloads, Drain(reader, start));
  }

  lemma OutcomeIs(reader: Reader, payloads: seq<string>, st: State)
    requires Consistent(reader, payloads, st)
    ensures st.fired <= 1 && (st.sawDone <==> DONE_MARK in payloads && !st.raised)
    ensures st.raised <==> exists n :: 0 <= n < |payloads| && RaisesAt(reader, payloads, n)
  {
    hide CarriesContent, ChunkOf;
  }

  lemma {:induction false} NoLineEnd(s: string)
    requires forall c | c in s :: !IsLineEnd(c)
    ensures LineLength(s) == |s|
  {
    if s != "" {
      assert s[0] in s;
      NoLineEnd(s[1..]);
    }
  }

  /** The text of one event with one data line has one payload. */
  lemma OneEvent(event: string, data: string)
    requires event != "" && (forall c | c in event :: !IsLineEnd(c)) && Payload(event) == Some(data)
    ensures Payloads(event + "\n\n") == [data]
  {
    var text := event + "\n\n";
    assert text[|event|] == '\n' && text[|event| + 1] == '\n';
    assert forall i | 0 <= i < |event| :: text[i] == event[i] && event[i] in event;
    assert IsLineEnd('\n');
    assert Find(text) == Some(|event|);
    assert text[..|event|] == event && text[|event| + 2..] == "";
    NoLineEnd(event);
    hide Payload, IsLineEnd;
    assert PayloadsOfLines([]) == [] && [event][..0] == [];
    assert PayloadsOfLines([event]) == [data];
    assert Find("") == None && Payloads("") == [];
  }

  lemma DataOne()
    ensures Payload("data: 1") == Some("1")
  {
    var rest := "data: 1"[|DATA_FIELD|..];
    assert rest == " 1" && rest[1..] == "1";
    assert Spaces("1") == "" && Spaces(" 1") == " ";
    assert AfterSpaces(" 1") == "1" && StripRight("1") == "1";
  }

  /** With a callback, one event whose data is no object makes the reader raise. */
  lemma OneEventRaises(reader: Reader, event: string, data: string, value: Json)
    requires event != "" && (forall c | c in event :: !IsLineEnd(c)) && Payload(event) == Some(data)
    requires reader.hasCallback && data != DONE_MARK && reader.loads(data) == Some(value) && !value.Obj?
    ensures Run(reader, [event + "\n\n"], 1).raised
  {
    OneEvent(event, data);
    assert RaisesAt(reader, [data], 0);
    var pieces := [event + "\n\n"];
    assert Joined(pieces, 1) == "" + pieces[0] == pieces[0];
    hide Run, Payloads, RaisesAt, HasContent, Payload;
    ReaderReturnsThePayloads(reader, pieces);
  }

  /** For instance an event of the number 1. */
  lemma NumberRaises(reader: Reader)
    requires reader.hasCallback && reader.loads("1") == Some(Int(1))
    ensures Run(reader, ["data: 1\n\n"], 1).raised
  {
    DataOne();
    assert "data: 1" + "\n\n" == "data: 1\n\n";
    hide Payload, Run;
    OneEventRaises(reader, "data: 1", "1", Int(1));
  }
}
