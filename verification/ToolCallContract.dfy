/** `tool_call_contract.py`: the keys both halves share, and prior calls rendered in that shape. */
module ToolCallContract {
  import opened Wrappers
  import opened JsonValues
  import opened JsonText

  const TOOL_CALL_SINGLE_KEY := "tool_call"
  const TOOL_CALL_BATCH_KEY := "tool_calls"
  const TOOL_CALL_NAME_KEY := "name"
  const ARGUMENT_KEYS: seq<string> := ["arguments", "input"]

  /** `json.loads` (None for a decode error) and `repr` of a float. */
  datatype Codec = Codec(loads: string -> Option<Json>, floats: real -> string)

  /** `call.get("function") or {}`; None where `.get` on the result would raise. */
  function FunctionOf(call: Members): Option<Members> {
    match Get(call, "function")
    case Some(Obj(members)) => Some(members)
    case Some(v) => if Falsy(v) then Some([]) else None
    case None => Some([])
  }

  predicate Falsy(v: Json) {
    v == Null || v == Bool(false) || v == Int(0) || v == Float(0.0) || v == Str("") || v == Arr([]) || v == Obj([])
  }

  function DecodedArguments(arguments: Json, codec: Codec): Json {
    if arguments.Str? then
      var decoded := codec.loads(arguments.s);
      if decoded.Some? then decoded.value else arguments
    else arguments
  }

  function OrNull(v: Option<Json>): Json { if v.Some? then v.value else Null }

  function RenderedCall(call: Members, codec: Codec): Option<Json> {
    var function_ := FunctionOf(call);
    if function_.None? then None
    else
      var arguments := Get(function_.value, "arguments");
      Some(Obj([
        Member("id", OrNull(Get(call, "id"))),
        Member(TOOL_CALL_NAME_KEY, OrNull(Get(function_.value, "name"))),
        Member(ARGUMENT_KEYS[0], DecodedArguments(if arguments.Some? then arguments.value else Str("{}"), codec))]))
  }

  function RenderedCalls(calls: seq<Members>, codec: Codec, n: nat): Option<seq<Json>>
    requires n <= |calls|
  {
    if n == 0 then Some([])
    else
      var front, last := RenderedCalls(calls, codec, n - 1), RenderedCall(calls[n - 1], codec);
      if front.None? || last.None? then None else Some(front.value + [last.value])
  }

  function Rendered(calls: seq<Members>, codec: Codec): Option<string> {
    var rendered := RenderedCalls(calls, codec, |calls|);
    if rendered.None? then None
    else Some(Dumps(Obj([Member(TOOL_CALL_BATCH_KEY, Arr(rendered.value))]), codec.floats))
  }

  /** `render_prior_tool_calls`. */
  method RenderPriorToolCalls(calls: seq<Members>, codec: Codec) returns (text: Option<string>)
    ensures text == Rendered(calls, codec)
  {
    var rendered: seq<Json> := [];
    for i := 0 to |calls|
      invariant RenderedCalls(calls, codec, i) == Some(rendered)
    {
      var entry := RenderedCall(calls[i], codec);
      if entry.None? {
        NothingAfterFailure(calls, codec, i + 1, |calls|);
        return None;
      }
      rendered := rendered + [entry.value];
    }
    return Some(Dumps(Obj([Member(TOOL_CALL_BATCH_KEY, Arr(rendered))]), codec.floats));
  }

  lemma {:induction false} NothingAfterFailure(calls: seq<Members>, codec: Codec, i: nat, n: nat)
    requires i <= n <= |calls| && RenderedCalls(calls, codec, i).None?
    ensures RenderedCalls(calls, codec, n).None?
  {
    if i < n { NothingAfterFailure(calls, codec, i, n - 1); }
  }
}
