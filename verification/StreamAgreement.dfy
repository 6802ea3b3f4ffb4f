// The server's and the client's collectors agree on every error-free response, and both
// compute its direct specification.
module StreamAgreement {
  import opened Wrappers
  import opened Text
  import opened ResponsesStream
  import opened ChatCollectors

  function AllPresent(calls: seq<ToolCall>): (r: seq<Option<ToolCall>>)
    ensures |r| == |calls| && forall i :: 0 <= i < |calls| ==> r[i] == Some(calls[i])
  {
    seq(|calls|, i requires 0 <= i < |calls| => Some(calls[i]))
  }

  function Indexed(calls: seq<ToolCall>): (m: map<nat, ToolCall>)
    ensures forall i: nat :: i in m <==> i < |calls|
    ensures forall i: nat :: i in m ==> m[i] == calls[i]
  {
    map i: nat | 0 <= i < |calls| :: calls[i]
  }

  function Counting(n: nat): (r: seq<nat>)
    ensures |r| == n && forall i :: 0 <= i < n ==> r[i] == i
  {
    seq(n, (i: nat) => i)
  }

  // What each collector holds after n events.
  function Server(events: seq<Event>, n: nat): Collected
    requires n <= |events|
  {
    Collected(TextOf(events, n), AllPresent(CallsOf(events, n)), FinishOf(events, n))
  }

  function Client(events: seq<Event>, n: nat): Aggregated
    requires n <= |events|
  {
    Aggregated(TextOf(events, n), Indexed(CallsOf(events, n)), Counting(|CallsOf(events, n)|), FinishOf(events, n))
  }

  lemma {:induction false} CollectAllAppend(c: Collected, xs: seq<Chunk>, ys: seq<Chunk>)
    ensures CollectAll(c, xs + ys) == CollectAll(CollectAll(c, xs), ys)
  {
    if |ys| == 0 {
      assert xs + ys == xs;
    } else {
      CollectAllAppend(c, xs, ys[..|ys| - 1]);
      assert (xs + ys)[..|xs + ys| - 1] == xs + ys[..|ys| - 1];
    }
  }

  lemma {:induction false} AggregateAllAppend(a: Aggregated, xs: seq<Chunk>, ys: seq<Chunk>)
    ensures AggregateAll(a, xs + ys) == AggregateAll(AggregateAll(a, xs), ys)
  {
    if |ys| == 0 {
      assert xs + ys == xs;
    } else {
      AggregateAllAppend(a, xs, ys[..|ys| - 1]);
      assert (xs + ys)[..|xs + ys| - 1] == xs + ys[..|ys| - 1];
    }
  }

  lemma OneChunk(c: Collected, a: Aggregated, x: Chunk)
    ensures CollectAll(c, [x]) == Collect(c, x) && AggregateAll(a, [x]) == Aggregate(a, x)
  {
    assert [x][..0] == [];
  }

  // The role chunk, sent at most once, says nothing to a collector.
  lemma RoleIsSilent(c: Collected, a: Aggregated, s: State, rest: seq<Chunk>)
    ensures CollectAll(c, Role(s) + rest) == CollectAll(c, rest)
    ensures AggregateAll(a, Role(s) + rest) == AggregateAll(a, rest)
  {
    CollectAllAppend(c, Role(s), rest);
    AggregateAllAppend(a, Role(s), rest);
    if !s.roleSent { OneChunk(c, a, ROLE_CHUNK); }
    assert Collect(c, ROLE_CHUNK) == c && Aggregate(a, ROLE_CHUNK) == a;
  }

  lemma ToolChunkOnce(c: Collected, a: Aggregated, d: ToolDelta)
    ensures Collect(c, ToolChunk(d)) == c.(calls := CollectDelta(c.calls, d))
    ensures Aggregate(a, ToolChunk(d)) == AggregateDelta(a, d)
  {
    assert [d][1..] == [];
    assert CollectDeltas(c.calls, [d]) == CollectDelta(c.calls, d);
    assert AggregateDeltas(a, [d]) == AggregateDelta(a, d);
  }

  // Opening the next call appends it on the server's side,
  lemma OpenOnServer(calls: seq<ToolCall>, id: Option<string>, name: Option<string>)
    ensures CollectDelta(AllPresent(calls), ToolDelta(|calls|, id, Some(FunctionDelta(name, Some("")))))
            == AllPresent(calls + [ToolCall(OrEmpty(id), OrEmpty(name), "")])
  {
    var d := ToolDelta(|calls|, id, Some(FunctionDelta(name, Some(""))));
    ExtendedIsConcatenation("", name);
    assert "" + OrEmpty(name) == OrEmpty(name);
    var r := CollectDelta(AllPresent(calls), d);
    var expected := AllPresent(calls + [ToolCall(OrEmpty(id), OrEmpty(name), "")]);
    assert r[|calls|] == expected[|calls|];
    assert r == expected;
  }

  // and on the client's.
  lemma OpenOnClient(calls: seq<ToolCall>, a: Aggregated, id: Option<string>, name: Option<string>)
    requires a.calls == Indexed(calls) && a.order == Counting(|calls|)
    ensures var added := calls + [ToolCall(OrEmpty(id), OrEmpty(name), "")];
            AggregateDelta(a, ToolDelta(|calls|, id, Some(FunctionDelta(name, Some("")))))
            == a.(calls := Indexed(added), order := Counting(|added|))
  {
    var added := calls + [ToolCall(OrEmpty(id), OrEmpty(name), "")];
    var m := AggregateDelta(a, ToolDelta(|calls|, id, Some(FunctionDelta(name, Some("")))));
    assert m.calls[|calls|] == added[|calls|];
    assert m.calls == Indexed(added);
    assert m.order == Counting(|added|);
  }

  // An argument delta extends the same call on both sides.
  lemma ExtendCall(calls: seq<ToolCall>, a: Aggregated, k: nat, text: Option<string>)
    requires k < |calls| && a.calls == Indexed(calls)
    ensures var d := ToolDelta(k, None, Some(FunctionDelta(None, Some(OrEmpty(text)))));
            var longer := calls[k := calls[k].(arguments := calls[k].arguments + OrEmpty(text))];
            && CollectDelta(AllPresent(calls), d) == AllPresent(longer)
            && AggregateDelta(a, d) == a.(calls := Indexed(longer))
  {
    var d := ToolDelta(k, None, Some(FunctionDelta(None, Some(OrEmpty(text)))));
    var longer := calls[k := calls[k].(arguments := calls[k].arguments + OrEmpty(text))];
    ExtendedIsConcatenation(calls[k].arguments, Some(OrEmpty(text)));
    assert CollectDelta(AllPresent(calls), d) == AllPresent(longer);
    assert AggregateDelta(a, d).calls == Indexed(longer);
  }

  lemma StepAdded(events: seq<Event>, n: nat)
    requires n < |events| && IsFunctionCall(events[n])
    ensures var out := Emit(StateAfter(events, n), events[n]);
            && CollectAll(Server(events, n), out) == Server(events, n + 1)
            && AggregateAll(Client(events, n), out) == Client(events, n + 1)
  {
    var s, item, calls := StateAfter(events, n), events[n].item.value, CallsOf(events, n);
    var c, a := Server(events, n), Client(events, n);
    TablesAreFaithful(events, n);
    CallAdded(events, n);
    AddedSaysNothingElse(events, n);
    hide CollectAll, AggregateAll, CallsOf, TextOf, FinishOf, StateAfter, Role, Advance;
    var d := ToolDelta(s.toolCallCount, item.callId, Some(FunctionDelta(item.name, Some(""))));
    RoleIsSilent(c, a, s, [ToolChunk(d)]);
    OpenedChunk(c, a, calls, item);
  }

  lemma AddedSaysNothingElse(events: seq<Event>, n: nat)
    requires n < |events| && IsFunctionCall(events[n])
    ensures TextOf(events, n + 1) == TextOf(events, n) && FinishOf(events, n + 1) == FinishOf(events, n)
  {
  }

  // The chunk that opens the next call, for the calls held by both sides.
  lemma OpenedChunk(c: Collected, a: Aggregated, calls: seq<ToolCall>, item: Item)
    requires c.calls == AllPresent(calls) && a.calls == Indexed(calls) && a.order == Counting(|calls|)
    ensures var chunk := ToolChunk(ToolDelta(|calls|, item.callId, Some(FunctionDelta(item.name, Some("")))));
            var added := calls + [ToolCall(OrEmpty(item.callId), OrEmpty(item.name), "")];
            && CollectAll(c, [chunk]) == c.(calls := AllPresent(added))
            && AggregateAll(a, [chunk]) == a.(calls := Indexed(added), order := Counting(|added|))
  {
    var d := ToolDelta(|calls|, item.callId, Some(FunctionDelta(item.name, Some(""))));
    OneChunk(c, a, ToolChunk(d));
    ToolChunkOnce(c, a, d);
    OpenOnServer(calls, item.callId, item.name);
    OpenOnClient(calls, a, item.callId, item.name);
  }

  // One argument chunk, for the calls held by both sides.
  lemma ArgumentsChunk(c: Collected, a: Aggregated, calls: seq<ToolCall>, k: nat, text: Option<string>)
    requires k < |calls| && c.calls == AllPresent(calls) && a.calls == Indexed(calls)
    ensures var chunk := ToolChunk(ToolDelta(k, None, Some(FunctionDelta(None, Some(OrEmpty(text))))));
            var longer := calls[k := calls[k].(arguments := calls[k].arguments + OrEmpty(text))];
            && CollectAll(c, [chunk]) == c.(calls := AllPresent(longer))
            && AggregateAll(a, [chunk]) == a.(calls := Indexed(longer))
  {
    var d := ToolDelta(k, None, Some(FunctionDelta(None, Some(OrEmpty(text)))));
    OneChunk(c, a, ToolChunk(d));
    ToolChunkOnce(c, a, d);
    ExtendCall(calls, a, k, text);
  }

  lemma StepArguments(events: seq<Event>, n: nat)
    requires n < |events| && events[n].ArgumentsDelta?
    ensures var out := Emit(StateAfter(events, n), events[n]);
            && CollectAll(Server(events, n), out) == Server(events, n + 1)
            && AggregateAll(Client(events, n), out) == Client(events, n + 1)
  {
    var e, s, calls := events[n], StateAfter(events, n), CallsOf(events, n);
    var c, a := Server(events, n), Client(events, n);
    if e.itemId.Some? && e.itemId.value in s.toolIndexByItem {
      var k := s.toolIndexByItem[e.itemId.value];
      ArgumentsExtended(events, n);
      ArgumentsChunk(c, a, calls, k, e.delta);
      assert TextOf(events, n + 1) == TextOf(events, n) && FinishOf(events, n + 1) == FinishOf(events, n);
    } else {
      CallsUnchanged(events, n);
    }
  }

  lemma StepText(events: seq<Event>, n: nat)
    requires n < |events| && events[n].TextDelta?
    ensures var out := Emit(StateAfter(events, n), events[n]);
            && CollectAll(Server(events, n), out) == Server(events, n + 1)
            && AggregateAll(Client(events, n), out) == Client(events, n + 1)
  {
    var c, a := Server(events, n), Client(events, n);
    var x := Chunk(Delta(false, Some(OrEmpty(events[n].delta)), None), None);
    CallsUnchanged(events, n);
    RoleIsSilent(c, a, StateAfter(events, n), [x]);
    OneChunk(c, a, x);
    ExtendedIsConcatenation(TextOf(events, n), Some(OrEmpty(events[n].delta)));
  }

  lemma StepEnded(events: seq<Event>, n: nat)
    requires n < |events| && events[n].Ended?
    ensures var out := Emit(StateAfter(events, n), events[n]);
            && CollectAll(Server(events, n), out) == Server(events, n + 1)
            && AggregateAll(Client(events, n), out) == Client(events, n + 1)
  {
    TablesAreFaithful(events, n);
    CallsUnchanged(events, n);
    OneChunk(Server(events, n), Client(events, n), Emit(StateAfter(events, n), events[n])[0]);
    assert TextOf(events, n + 1) == TextOf(events, n);
  }

  lemma StepSilent(events: seq<Event>, n: nat)
    requires n < |events| && (events[n].Unknown? || (events[n].ItemAdded? && !IsFunctionCall(events[n])))
    ensures var out := Emit(StateAfter(events, n), events[n]);
            && CollectAll(Server(events, n), out) == Server(events, n + 1)
            && AggregateAll(Client(events, n), out) == Client(events, n + 1)
  {
    var s := StateAfter(events, n);
    CallsUnchanged(events, n);
    RoleIsSilent(Server(events, n), Client(events, n), s, []);
    assert Role(s) + [] == Role(s);
    assert TextOf(events, n + 1) == TextOf(events, n);
  }

  // One event, whichever it is.
  lemma Step(events: seq<Event>, n: nat)
    requires n < |events| && !events[n].Failed?
    ensures var out := Emit(StateAfter(events, n), events[n]);
            && CollectAll(Server(events, n), out) == Server(events, n + 1)
            && AggregateAll(Client(events, n), out) == Client(events, n + 1)
  {
    if IsFunctionCall(events[n]) { StepAdded(events, n); }
    else if events[n].ArgumentsDelta? { StepArguments(events, n); }
    else if events[n].TextDelta? { StepText(events, n); }
    else if events[n].Ended? { StepEnded(events, n); }
    else { StepSilent(events, n); }
  }

  lemma NothingYet(events: seq<Event>)
    ensures CollectAll(NOTHING, ChunksOf(events, 0)) == Server(events, 0)
    ensures AggregateAll(EMPTY, ChunksOf(events, 0)) == Client(events, 0)
  {
    assert Indexed(CallsOf(events, 0)) == map[];
  }

  // Both collectors follow the specification through every prefix of the events.
  lemma {:induction false} CollectorsFollow(events: seq<Event>, n: nat)
    requires n <= |events| && ErrorFree(events)
    ensures CollectAll(NOTHING, ChunksOf(events, n)) == Server(events, n)
    ensures AggregateAll(EMPTY, ChunksOf(events, n)) == Client(events, n)
  {
    hide *;
    if n == 0 {
      NothingYet(events);
    } else {
      CollectorsFollow(events, n - 1);
      FollowOne(events, n - 1);
    }
  }

  lemma FollowOne(events: seq<Event>, n: nat)
    requires n < |events| && ErrorFree(events)
    requires CollectAll(NOTHING, ChunksOf(events, n)) == Server(events, n)
    requires AggregateAll(EMPTY, ChunksOf(events, n)) == Client(events, n)
    ensures CollectAll(NOTHING, ChunksOf(events, n + 1)) == Server(events, n + 1)
    ensures AggregateAll(EMPTY, ChunksOf(events, n + 1)) == Client(events, n + 1)
  {
    ChunksStep(events, n);
    hide Server, Client, CollectAll, AggregateAll, ChunksOf;
    Step(events, n);
  }

  lemma ChunksStep(events: seq<Event>, n: nat)
    requires n < |events|
    ensures var out, chunks := Emit(StateAfter(events, n), events[n]), ChunksOf(events, n);
            && CollectAll(NOTHING, ChunksOf(events, n + 1)) == CollectAll(CollectAll(NOTHING, chunks), out)
            && AggregateAll(EMPTY, ChunksOf(events, n + 1)) == AggregateAll(AggregateAll(EMPTY, chunks), out)
  {
    var out, chunks := Emit(StateAfter(events, n), events[n]), ChunksOf(events, n);
    assert ChunksOf(events, n + 1) == chunks + out;
    CollectAllAppend(NOTHING, chunks, out);
    AggregateAllAppend(EMPTY, chunks, out);
  }

  lemma {:induction false} PresentOfAll(calls: seq<ToolCall>)
    ensures Present(AllPresent(calls)) == calls
  {
    if |calls| > 0 {
      PresentOfAll(calls[1..]);
      assert AllPresent(calls)[1..] == AllPresent(calls[1..]);
    }
  }

  lemma {:induction false} OrderedFrom(calls: seq<ToolCall>, k: nat)
    requires k <= |calls|
    ensures Ordered(Indexed(calls), Counting(|calls|)[k..]) == calls[k..]
    decreases |calls| - k
  {
    if k < |calls| {
      OrderedFrom(calls, k + 1);
      assert Counting(|calls|)[k..][1..] == Counting(|calls|)[k + 1..];
      assert calls[k..] == [calls[k]] + calls[k + 1..];
    }
  }

  // A whole streamed body: the framed chunks and the final marker.
  function Body(chunks: seq<Chunk>, show: Chunk -> string): string {
    Framed(chunks, show) + ("data: [DONE]" + "\n\n")
  }

  lemma BodyKeepsChunks(chunks: seq<Chunk>, show: Chunk -> string, parse: string -> Option<Chunk>)
    requires Faithful(show, parse)
    ensures AggregateLines(EMPTY, CompleteLines(Body(chunks, show)), parse) == AggregateAll(EMPTY, chunks)
  {
    FramingKeepsChunks(chunks, show, parse);
    FramedEnds(chunks, show);
    TwoMoreLines(Framed(chunks, show), "data: [DONE]", EMPTY, parse);
    BlankAndDoneLines(AggregateAll(EMPTY, chunks), parse);
  }

  // For every error-free response: the text is the concatenated text deltas, the k-th tool
  // call is the k-th added function item with its argument deltas, and the server's message
  // and the client's differ only in how they write an empty text and a missing finish reason.
  lemma CollectorsAgree(events: seq<Event>, show: Chunk -> string, parse: string -> Option<Chunk>)
    requires ErrorFree(events) && Faithful(show, parse)
    ensures var n := |events|;
            var chunks := ChunksOf(events, n);
            var server := CollectedMessage(CollectAll(NOTHING, chunks));
            var client := AggregatedMessage(AggregateLines(EMPTY, CompleteLines(Body(chunks, show)), parse));
            && server.toolCalls == CallsOf(events, n) && client.toolCalls == CallsOf(events, n)
            && server.content == (if TextOf(events, n) == "" && |CallsOf(events, n)| > 0 then None
                                  else Some(TextOf(events, n)))
            && client.content == (if TextOf(events, n) == "" then None else Some(TextOf(events, n)))
            && client.finish == FinishOf(events, n)
            && server.finish == (if FinishOf(events, n).Some? then FinishOf(events, n) else Some("stop"))
  {
    var n := |events|;
    CollectorsFollow(events, n);
    BodyKeepsChunks(ChunksOf(events, n), show, parse);
    PresentOfAll(CallsOf(events, n));
    OrderedFrom(CallsOf(events, n), 0);
    assert Counting(|CallsOf(events, n)|)[0..] == Counting(|CallsOf(events, n)|);
  }

  // The agreement depends on the converter: on chunks that send a name in two deltas, the
  // server concatenates the pieces and the client keeps the last one.
  lemma SplitNamesDisagree()
    ensures var chunks := [ToolChunk(ToolDelta(0, Some("c"), Some(FunctionDelta(Some("re"), None)))),
                           ToolChunk(ToolDelta(0, None, Some(FunctionDelta(Some("ad"), None))))];
            && CollectedMessage(CollectAll(NOTHING, chunks)).toolCalls == [ToolCall("c", "read", "")]
            && AggregatedMessage(AggregateAll(EMPTY, chunks)).toolCalls == [ToolCall("c", "ad", "")]
  {
    var d1 := ToolDelta(0, Some("c"), Some(FunctionDelta(Some("re"), None)));
    var d2 := ToolDelta(0, None, Some(FunctionDelta(Some("ad"), None)));
    CollectAllAppend(NOTHING, [ToolChunk(d1)], [ToolChunk(d2)]);
    AggregateAllAppend(EMPTY, [ToolChunk(d1)], [ToolChunk(d2)]);
    OneChunk(NOTHING, EMPTY, ToolChunk(d1));
    ToolChunkOnce(NOTHING, EMPTY, d1);
    var c, a := NOTHING.(calls := CollectDelta([], d1)), AggregateDelta(EMPTY, d1);
    OneChunk(c, a, ToolChunk(d2));
    ToolChunkOnce(c, a, d2);
    SplitNameServer();
    SplitNameClient();
  }

  lemma SplitNameServer()
    ensures var d1 := ToolDelta(0, Some("c"), Some(FunctionDelta(Some("re"), None)));
            var d2 := ToolDelta(0, None, Some(FunctionDelta(Some("ad"), None)));
            Present(CollectDelta(CollectDelta([], d1), d2)) == [ToolCall("c", "read", "")]
  {
    assert "" + "re" == "re" && "re" + "ad" == "read";
    var d1 := ToolDelta(0, Some("c"), Some(FunctionDelta(Some("re"), None)));
    var d2 := ToolDelta(0, None, Some(FunctionDelta(Some("ad"), None)));
    var one := CollectDelta([], d1);
    assert one == [Some(ToolCall("c", "re", ""))];
    var two := CollectDelta(one, d2);
    assert two == [Some(ToolCall("c", "read", ""))];
    assert two[1..] == [];
  }

  lemma SplitNameClient()
    ensures var d1 := ToolDelta(0, Some("c"), Some(FunctionDelta(Some("re"), None)));
            var d2 := ToolDelta(0, None, Some(FunctionDelta(Some("ad"), None)));
            var a := AggregateDelta(AggregateDelta(EMPTY, d1), d2);
            Ordered(a.calls, a.order) == [ToolCall("c", "ad", "")]
  {
    var d1 := ToolDelta(0, Some("c"), Some(FunctionDelta(Some("re"), None)));
    var d2 := ToolDelta(0, None, Some(FunctionDelta(Some("ad"), None)));
    var one := AggregateDelta(EMPTY, d1);
    assert one.calls == map[0 := ToolCall("c", "re", "")] && one.order == [0];
    var two := AggregateDelta(one, d2);
    assert two.calls == map[0 := ToolCall("c", "ad", "")] && two.order == [0];
    assert [0][1..] == [];
  }
}
