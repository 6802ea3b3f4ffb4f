// Codex Responses events and the stateful converter that turns them into
// chat.completion.chunks (packages/codex-proxy/src/responses-stream.ts).
module ResponsesStream {
  import opened Wrappers

  datatype Item = Item(id: Option<string>, kind: Option<string>, callId: Option<string>, name: Option<string>)

  datatype Event =
    | ItemAdded(item: Option<Item>)
    | TextDelta(delta: Option<string>)
    | ArgumentsDelta(itemId: Option<string>, delta: Option<string>)
    | Ended(status: Option<string>) // response.completed, response.done, response.incomplete
    | Failed                        // error, response.failed
    | Unknown

  datatype FunctionDelta = FunctionDelta(name: Option<string>, arguments: Option<string>)

  datatype ToolDelta = ToolDelta(index: nat, id: Option<string>, fn: Option<FunctionDelta>)

  datatype Delta = Delta(assistant: bool, content: Option<string>, toolCalls: Option<seq<ToolDelta>>)

  // The choice of a chunk; id, model and creation time are the same in every chunk.
  datatype Chunk = Chunk(delta: Delta, finish: Option<string>)

  const ROLE_CHUNK := Chunk(Delta(true, None, None), None)

  function ToolChunk(d: ToolDelta): Chunk {
    Chunk(Delta(false, None, Some([d])), None)
  }

  function OrEmpty(s: Option<string>): string {
    if s.Some? then s.value else ""
  }

  predicate IsFunctionCall(e: Event) {
    e.ItemAdded? && e.item.Some? && e.item.value.kind == Some("function_call")
  }

  datatype State = State(roleSent: bool, toolIndexByItem: map<string, nat>, toolCallCount: nat, sawToolCall: bool)

  const FRESH := State(false, map[], 0, false)

  function Role(s: State): seq<Chunk> {
    if s.roleSent then [] else [ROLE_CHUNK]
  }

  // The state after one event.
  function Advance(s: State, e: Event): State {
    if IsFunctionCall(e) then
      var id := e.item.value.id;
      State(true,
            if id.Some? && id.value != "" then s.toolIndexByItem[id.value := s.toolCallCount] else s.toolIndexByItem,
            s.toolCallCount + 1, true)
    else if e.TextDelta? || (e.ItemAdded? && e.item.Some? && e.item.value.kind == Some("message")) then
      s.(roleSent := true)
    else s
  }

  // The chunks one event yields.
  function Emit(s: State, e: Event): seq<Chunk> {
    match e
    case ItemAdded(item) =>
      if IsFunctionCall(e) then
        Role(s) + [ToolChunk(ToolDelta(s.toolCallCount, item.value.callId,
                                       Some(FunctionDelta(item.value.name, Some("")))))]
      else if item.Some? && item.value.kind == Some("message") then Role(s)
      else []
    case TextDelta(delta) => Role(s) + [Chunk(Delta(false, Some(OrEmpty(delta)), None), None)]
    case ArgumentsDelta(itemId, delta) =>
      if itemId.Some? && itemId.value in s.toolIndexByItem then
        [ToolChunk(ToolDelta(s.toolIndexByItem[itemId.value], None, Some(FunctionDelta(None, Some(OrEmpty(delta))))))]
      else []
    case Ended(status) =>
      [Chunk(Delta(false, None, None),
             Some(if status == Some("incomplete") then "length" else if s.sawToolCall then "tool_calls" else "stop"))]
    case Failed => []
    case Unknown => []
  }

  class ResponsesStreamConverter {
    var roleSent: bool
    var toolIndexByItem: map<string, nat>
    var toolCallCount: nat
    var sawToolCall: bool

    function Value(): State
      reads this
    {
      State(roleSent, toolIndexByItem, toolCallCount, sawToolCall)
    }

    constructor ()
      ensures Value() == FRESH
    {
      roleSent := false;
      toolIndexByItem := map[];
      toolCallCount := 0;
      sawToolCall := false;
    }

    method RoleOnce() returns (out: seq<Chunk>)
      modifies this
      ensures out == Role(old(Value()))
      ensures Value() == old(Value()).(roleSent := true)
    {
      if roleSent { return []; }
      roleSent := true;
      out := [ROLE_CHUNK];
    }

    // `push`: an error event throws and leaves the state alone.
    method Push(event: Event) returns (r: Result<seq<Chunk>, Event>)
      modifies this
      ensures event.Failed? ==> r == Err(event) && Value() == old(Value())
      ensures !event.Failed? ==> r == Ok(Emit(old(Value()), event)) && Value() == Advance(old(Value()), event)
    {
      match event
      case ItemAdded(item) =>
        if item.Some? && item.value.kind == Some("message") {
          var out := RoleOnce();
          return Ok(out);
        }
        if item.Some? && item.value.kind == Some("function_call") {
          var out := RoleOnce();
          sawToolCall := true;
          var index := toolCallCount;
          toolCallCount := toolCallCount + 1;
          if item.value.id.Some? && item.value.id.value != "" {
            toolIndexByItem := toolIndexByItem[item.value.id.value := index];
          }
          return Ok(out + [ToolChunk(ToolDelta(index, item.value.callId,
                                               Some(FunctionDelta(item.value.name, Some("")))))]);
        }
        return Ok([]);
      case TextDelta(delta) =>
        var out := RoleOnce();
        return Ok(out + [Chunk(Delta(false, Some(OrEmpty(delta)), None), None)]);
      case ArgumentsDelta(itemId, delta) =>
        if itemId.None? || itemId.value !in toolIndexByItem {
          return Ok([]);
        }
        return Ok([ToolChunk(ToolDelta(toolIndexByItem[itemId.value], None,
                                       Some(FunctionDelta(None, Some(OrEmpty(delta))))))]);
      case Ended(status) =>
        var finish := if status == Some("incomplete") then "length" else if sawToolCall then "tool_calls" else "stop";
        return Ok([Chunk(Delta(false, None, None), Some(finish))]);
      case Failed => return Err(event);
      case Unknown => return Ok([]);
    }
  }

  // ---------------------------------------------------------------- whole streams

  // The state after the first n events, and the chunks they yield together.
  function StateAfter(events: seq<Event>, n: nat): State
    requires n <= |events|
  {
    if n == 0 then FRESH else Advance(StateAfter(events, n - 1), events[n - 1])
  }

  function ChunksOf(events: seq<Event>, n: nat): seq<Chunk>
    requires n <= |events|
  {
    if n == 0 then [] else ChunksOf(events, n - 1) + Emit(StateAfter(events, n - 1), events[n - 1])
  }

  predicate ErrorFree(events: seq<Event>) {
    forall i :: 0 <= i < |events| ==> !events[i].Failed?
  }

  // The first error event of a stream, and the chunks before it.
  ghost predicate FailsAt(events: seq<Event>, n: nat, chunks: seq<Chunk>, failure: Event) {
    && n < |events| && failure == events[n] && events[n].Failed?
    && ErrorFree(events[..n]) && chunks == ChunksOf(events, n)
  }

  lemma OneMore(events: seq<Event>, n: nat)
    requires n < |events|
    ensures StateAfter(events, n + 1) == Advance(StateAfter(events, n), events[n])
    ensures ChunksOf(events, n + 1) == ChunksOf(events, n) + Emit(StateAfter(events, n), events[n])
  {
  }

  // `streamChatCompletion` after the events are parsed: the chunks yielded, and the event
  // that made it throw, if one did.
  method StreamChatCompletion(events: seq<Event>) returns (chunks: seq<Chunk>, failure: Option<Event>)
    ensures failure.None? ==> ErrorFree(events) && chunks == ChunksOf(events, |events|)
    ensures failure.Some? ==> exists n: nat :: FailsAt(events, n, chunks, failure.value)
  {
    hide Emit, Advance;
    var converter := new ResponsesStreamConverter();
    chunks := [];
    for n := 0 to |events|
      invariant converter.Value() == StateAfter(events, n)
      invariant chunks == ChunksOf(events, n)
      invariant forall i :: 0 <= i < n ==> !events[i].Failed?
    {
      OneMore(events, n);
      hide StateAfter, ChunksOf;
      var r := converter.Push(events[n]);
      if r.Err? {
        assert FailsAt(events, n, chunks, r.error);
        return chunks, Some(r.error);
      }
      chunks := chunks + r.value;
    }
    failure := None;
  }

  // ---------------------------------------------------------------- the role chunk

  predicate Speaks(c: Chunk) {
    c.delta.content.Some? || c.delta.toolCalls.Some?
  }

  // The chunk that names the role names nothing else, comes once at most, and comes before
  // everything that the assistant says.
  ghost predicate RoleFirst(chunks: seq<Chunk>) {
    && (forall i :: 0 <= i < |chunks| && chunks[i].delta.assistant ==>
          !Speaks(chunks[i]) && chunks[i].finish.None?)
    && (forall i, j :: 0 <= i < j < |chunks| && chunks[j].delta.assistant ==>
          !chunks[i].delta.assistant && !Speaks(chunks[i]))
    && (forall i :: 0 <= i < |chunks| && Speaks(chunks[i]) ==> HasRole(chunks))
  }

  ghost predicate HasRole(chunks: seq<Chunk>) {
    exists i :: 0 <= i < |chunks| && chunks[i].delta.assistant
  }

  // What makes the assistant begin: a message, a function call or a piece of text.
  predicate Begins(e: Event) {
    || e.TextDelta?
    || (e.ItemAdded? && e.item.Some? && e.item.value.kind in {Some("message"), Some("function_call")})
  }

  lemma EmitsRole(s: State, e: Event)
    requires s.toolIndexByItem != map[] ==> s.roleSent
    ensures var out := Emit(s, e);
            && (HasRole(out) <==> !s.roleSent && Begins(e))
            && (HasRole(out) ==> out[0] == ROLE_CHUNK)
            && (forall i :: 1 <= i < |out| ==> !out[i].delta.assistant)
            && (!s.roleSent && !Begins(e) ==> forall i :: 0 <= i < |out| ==> !Speaks(out[i]))
    ensures var s' := Advance(s, e);
            && (s'.roleSent <==> s.roleSent || Begins(e))
            && (s'.toolIndexByItem != map[] ==> s'.roleSent)
  {
    var out := Emit(s, e);
    if !s.roleSent && Begins(e) { assert out[0] == ROLE_CHUNK; }
  }

  lemma AppendKeepsRoleFirst(chunks: seq<Chunk>, out: seq<Chunk>)
    requires RoleFirst(chunks)
    requires HasRole(out) ==> !HasRole(chunks) && out[0] == ROLE_CHUNK
    requires forall i :: 1 <= i < |out| ==> !out[i].delta.assistant
    requires !HasRole(chunks) && !HasRole(out) ==> forall i :: 0 <= i < |out| ==> !Speaks(out[i])
    ensures RoleFirst(chunks + out)
    ensures HasRole(chunks + out) <==> HasRole(chunks) || HasRole(out)
  {
    var all := chunks + out;
    assert forall i :: 0 <= i < |chunks| ==> all[i] == chunks[i];
    assert forall i :: 0 <= i < |out| ==> all[|chunks| + i] == out[i];
    assert forall i :: |chunks| <= i < |all| ==> all[i] == out[i - |chunks|];
    assert HasRole(all) <==> HasRole(chunks) || HasRole(out);
  }

  lemma NoRoleYet(events: seq<Event>)
    ensures RoleFirst(ChunksOf(events, 0)) && !HasRole(ChunksOf(events, 0))
    ensures StateAfter(events, 0) == FRESH && !FRESH.roleSent && FRESH.toolIndexByItem == map[]
  {
  }

  // Whatever the events, the role comes first, and it comes exactly when one of them begins
  // a message, a call or a text.
  lemma {:induction false} RoleComesFirst(events: seq<Event>, n: nat)
    requires n <= |events|
    ensures RoleFirst(ChunksOf(events, n))
    ensures HasRole(ChunksOf(events, n)) <==> exists i :: 0 <= i < n && Begins(events[i])
    ensures StateAfter(events, n).roleSent <==> HasRole(ChunksOf(events, n))
    ensures StateAfter(events, n).toolIndexByItem != map[] ==> StateAfter(events, n).roleSent
  {
    hide *;
    if n == 0 {
      NoRoleYet(events);
    } else {
      RoleComesFirst(events, n - 1);
      OneMore(events, n - 1);
      EmitsRole(StateAfter(events, n - 1), events[n - 1]);
      AppendKeepsRoleFirst(ChunksOf(events, n - 1), Emit(StateAfter(events, n - 1), events[n - 1]));
    }
  }

  // ---------------------------------------------------------------- direct specification

  // The text of a response: the text deltas in order.
  function TextOf(events: seq<Event>, n: nat): string
    requires n <= |events|
  {
    if n == 0 then ""
    else TextOf(events, n - 1) + if events[n - 1].TextDelta? then OrEmpty(events[n - 1].delta) else ""
  }

  // Where the function calls among the first n events were added.
  function CallPositions(events: seq<Event>, n: nat): (ps: seq<nat>)
    requires n <= |events|
    ensures forall i :: 0 <= i < |ps| ==> ps[i] < n && IsFunctionCall(events[ps[i]])
  {
    if n == 0 then []
    else CallPositions(events, n - 1) + if IsFunctionCall(events[n - 1]) then [n - 1] else []
  }

  // The function call an item id refers to at time n: the latest one added with that id.
  function Referent(events: seq<Event>, id: string, n: nat): Option<nat>
    requires n <= |events|
  {
    if n == 0 then None
    else if IsFunctionCall(events[n - 1]) && events[n - 1].item.value.id == Some(id) && id != "" then Some(n - 1)
    else Referent(events, id, n - 1)
  }

  // The argument deltas among the first n events that refer to the call added at position p.
  function ArgumentsOf(events: seq<Event>, p: nat, n: nat): string
    requires n <= |events|
  {
    if n == 0 then ""
    else
      var e := events[n - 1];
      ArgumentsOf(events, p, n - 1)
      + if e.ArgumentsDelta? && e.itemId.Some? && Referent(events, e.itemId.value, n - 1) == Some(p)
        then OrEmpty(e.delta) else ""
  }

  datatype ToolCall = ToolCall(id: string, name: string, arguments: string)

  function CallAt(events: seq<Event>, p: nat, n: nat): ToolCall
    requires p < n <= |events| && IsFunctionCall(events[p])
  {
    var item := events[p].item.value;
    ToolCall(OrEmpty(item.callId), OrEmpty(item.name), ArgumentsOf(events, p, n))
  }

  // The k-th tool call is the k-th added function item with its argument deltas.
  function CallsOf(events: seq<Event>, n: nat): (calls: seq<ToolCall>)
    requires n <= |events|
    ensures |calls| == |CallPositions(events, n)|
    ensures forall k :: 0 <= k < |calls| ==> calls[k] == CallAt(events, CallPositions(events, n)[k], n)
  {
    var ps := CallPositions(events, n);
    seq(|ps|, k requires 0 <= k < |ps| => CallAt(events, ps[k], n))
  }

  // The finish reason announced last.
  function FinishOf(events: seq<Event>, n: nat): Option<string>
    requires n <= |events|
  {
    if n == 0 then None
    else if events[n - 1].Ended? then
      Some(if events[n - 1].status == Some("incomplete") then "length"
           else if |CallPositions(events, n - 1)| > 0 then "tool_calls" else "stop")
    else FinishOf(events, n - 1)
  }

  // The converter's tables say what the events say.
  lemma {:induction false} TablesAreFaithful(events: seq<Event>, n: nat)
    requires n <= |events|
    ensures var s, ps := StateAfter(events, n), CallPositions(events, n);
            && s.toolCallCount == |ps| && (s.sawToolCall <==> |ps| > 0)
            && (forall id :: id in s.toolIndexByItem <==> Referent(events, id, n).Some?)
            && (forall id :: id in s.toolIndexByItem ==>
                  s.toolIndexByItem[id] < |ps| && Referent(events, id, n) == Some(ps[s.toolIndexByItem[id]]))
  {
    if n > 0 {
      TablesAreFaithful(events, n - 1);
      var s, s' := StateAfter(events, n - 1), StateAfter(events, n);
      var ps, ps' := CallPositions(events, n - 1), CallPositions(events, n);
      assert forall k :: 0 <= k < |ps| ==> ps'[k] == ps[k];
      forall id
        ensures id in s'.toolIndexByItem <==> Referent(events, id, n).Some?
        ensures id in s'.toolIndexByItem ==>
                  s'.toolIndexByItem[id] < |ps'| && Referent(events, id, n) == Some(ps'[s'.toolIndexByItem[id]])
      {
        assert id in s.toolIndexByItem <==> Referent(events, id, n - 1).Some?;
      }
    }
  }

  lemma {:induction false} PositionsAreDistinct(events: seq<Event>, n: nat)
    requires n <= |events|
    ensures forall i, j :: 0 <= i < j < |CallPositions(events, n)| ==>
              CallPositions(events, n)[i] < CallPositions(events, n)[j]
  {
    if n > 0 { PositionsAreDistinct(events, n - 1); }
  }

  // A call that is only just added has no arguments yet.
  lemma {:induction false} NoEarlyArguments(events: seq<Event>, p: nat, n: nat)
    requires n <= |events| && n <= p
    ensures ArgumentsOf(events, p, n) == ""
  {
    if n > 0 {
      NoEarlyArguments(events, p, n - 1);
      var e := events[n - 1];
      if e.ArgumentsDelta? && e.itemId.Some? { ReferentIsEarlier(events, e.itemId.value, n - 1); }
    }
  }

  lemma {:induction false} ReferentIsEarlier(events: seq<Event>, id: string, n: nat)
    requires n <= |events|
    ensures Referent(events, id, n).Some? ==> Referent(events, id, n).value < n
  {
    if n > 0 { ReferentIsEarlier(events, id, n - 1); }
  }

  lemma PositionsGrow(events: seq<Event>, n: nat)
    requires n < |events|
    ensures var ps, ps' := CallPositions(events, n), CallPositions(events, n + 1);
            ps' == if IsFunctionCall(events[n]) then ps + [n] else ps
  {
  }

  // Adding a function item adds a tool call without arguments.
  lemma CallAdded(events: seq<Event>, n: nat)
    requires n < |events| && IsFunctionCall(events[n])
    ensures var item := events[n].item.value;
            CallsOf(events, n + 1) == CallsOf(events, n) + [ToolCall(OrEmpty(item.callId), OrEmpty(item.name), "")]
  {
    PositionsGrow(events, n);
    NoEarlyArguments(events, n, n);
    var ps := CallPositions(events, n);
    var item := events[n].item.value;
    var added := ToolCall(OrEmpty(item.callId), OrEmpty(item.name), "");
    assert ArgumentsOf(events, n, n + 1) == "";
    assert CallAt(events, n, n + 1) == added;
    var after, expected := CallsOf(events, n + 1), CallsOf(events, n) + [added];
    forall k | 0 <= k < |after| ensures after[k] == expected[k] {
      if k < |ps| { assert ArgumentsOf(events, ps[k], n + 1) == ArgumentsOf(events, ps[k], n); }
    }
  }

  // An argument delta extends the one call its item id refers to.
  lemma ArgumentsExtended(events: seq<Event>, n: nat)
    requires n < |events| && events[n].ArgumentsDelta? && events[n].itemId.Some?
    requires events[n].itemId.value in StateAfter(events, n).toolIndexByItem
    ensures var k, calls := StateAfter(events, n).toolIndexByItem[events[n].itemId.value], CallsOf(events, n);
            && k < |calls|
            && CallsOf(events, n + 1)
               == calls[k := calls[k].(arguments := calls[k].arguments + OrEmpty(events[n].delta))]
  {
    PositionsGrow(events, n);
    TablesAreFaithful(events, n);
    PositionsAreDistinct(events, n);
    var ps, k := CallPositions(events, n), StateAfter(events, n).toolIndexByItem[events[n].itemId.value];
    forall j | 0 <= j < |ps|
      ensures ArgumentsOf(events, ps[j], n + 1) ==
              ArgumentsOf(events, ps[j], n) + if j == k then OrEmpty(events[n].delta) else ""
    {
      assert ps[j] == ps[k] ==> j == k;
    }
    var calls := CallsOf(events, n);
    var after := CallsOf(events, n + 1);
    var expected := calls[k := calls[k].(arguments := calls[k].arguments + OrEmpty(events[n].delta))];
    forall j | 0 <= j < |after| ensures after[j] == expected[j] {
      assert after[j] == CallAt(events, ps[j], n + 1) && calls[j] == CallAt(events, ps[j], n);
    }
  }

  // No other event changes a tool call.
  lemma CallsUnchanged(events: seq<Event>, n: nat)
    requires n < |events| && !IsFunctionCall(events[n])
    requires events[n].ArgumentsDelta? && events[n].itemId.Some? ==>
               events[n].itemId.value !in StateAfter(events, n).toolIndexByItem
    ensures CallsOf(events, n + 1) == CallsOf(events, n)
  {
    PositionsGrow(events, n);
    TablesAreFaithful(events, n);
    var ps := CallPositions(events, n);
    forall j | 0 <= j < |ps| ensures ArgumentsOf(events, ps[j], n + 1) == ArgumentsOf(events, ps[j], n) {
    }
  }
}
