// The two independently written collectors of chat.completion.chunks: the server's
// `collectChatCompletion` (packages/codex-proxy/src/proxy.ts:34-76) and the client's
// `aggregateChatStream` (packages/agent-runtime/src/agent-runtime.ts:114-156), which reads
// the server's `data:` framing.
module ChatCollectors {
  import opened Wrappers
  import opened Text
  import opened ResponsesStream

  // `message` with its finish reason; no tool calls are an empty list.
  datatype Message = Message(content: Option<string>, toolCalls: seq<ToolCall>, finish: Option<string>)

  // Append a field unless it is missing or empty.
  function Extended(s: string, field: Option<string>): string {
    if OrEmpty(field) == "" then s else s + field.value
  }

  lemma ExtendedIsConcatenation(s: string, field: Option<string>)
    ensures Extended(s, field) == s + OrEmpty(field)
  {
  }

  // ---------------------------------------------------------------- server side

  // `toolCalls` may have holes.
  datatype Collected = Collected(content: string, calls: seq<Option<ToolCall>>, finish: Option<string>)

  // Assigning past the end of an array leaves holes.
  function Padded(calls: seq<Option<ToolCall>>, index: nat): (r: seq<Option<ToolCall>>)
    ensures |r| == if index < |calls| then |calls| else index + 1
    ensures forall i :: 0 <= i < |r| ==> r[i] == if i < |calls| then calls[i] else None
  {
    calls + if index < |calls| then [] else seq(index + 1 - |calls|, i requires 0 <= i => None)
  }

  function CollectDelta(calls: seq<Option<ToolCall>>, d: ToolDelta): seq<Option<ToolCall>> {
    var long := Padded(calls, d.index);
    var call := if long[d.index].Some? then long[d.index].value else ToolCall(OrEmpty(d.id), "", "");
    var named := if OrEmpty(d.id) != "" then call.(id := d.id.value) else call;
    long[d.index := Some(
      if d.fn.None? then named
      else named.(name := Extended(named.name, d.fn.value.name),
                  arguments := Extended(named.arguments, d.fn.value.arguments)))]
  }

  function CollectDeltas(calls: seq<Option<ToolCall>>, ds: seq<ToolDelta>): seq<Option<ToolCall>>
    decreases |ds|
  {
    if |ds| == 0 then calls else CollectDeltas(CollectDelta(calls, ds[0]), ds[1..])
  }

  function Collect(c: Collected, chunk: Chunk): Collected {
    Collected(
      Extended(c.content, chunk.delta.content),
      if chunk.delta.toolCalls.Some? then CollectDeltas(c.calls, chunk.delta.toolCalls.value) else c.calls,
      if OrEmpty(chunk.finish) != "" then chunk.finish else c.finish)
  }

  function CollectAll(c: Collected, chunks: seq<Chunk>): Collected {
    if |chunks| == 0 then c else Collect(CollectAll(c, chunks[..|chunks| - 1]), chunks[|chunks| - 1])
  }

  function Present(calls: seq<Option<ToolCall>>): seq<ToolCall> {
    if |calls| == 0 then [] else (if calls[0].Some? then [calls[0].value] else []) + Present(calls[1..])
  }

  const NOTHING := Collected("", [], None)

  function CollectedMessage(c: Collected): Message {
    var calls := Present(c.calls);
    Message(if c.content == "" && |calls| > 0 then None else Some(c.content), calls,
            if c.finish.Some? then c.finish else Some("stop"))
  }

  method CollectChatCompletion(chunks: seq<Chunk>) returns (message: Message)
    ensures message == CollectedMessage(CollectAll(NOTHING, chunks))
  {
    var content, finish: Option<string>, calls: seq<Option<ToolCall>> := "", None, [];
    for n := 0 to |chunks|
      invariant Collected(content, calls, finish) == CollectAll(NOTHING, chunks[..n])
    {
      var choice := chunks[n];
      assert chunks[..n + 1][..n] == chunks[..n];
      if choice.delta.content.Some? && choice.delta.content.value != "" {
        content := content + choice.delta.content.value;
      }
      if choice.delta.toolCalls.Some? {
        ghost var before := calls;
        var deltas := choice.delta.toolCalls.value;
        for k := 0 to |deltas|
          invariant CollectDeltas(before, deltas) == CollectDeltas(calls, deltas[k..])
        {
          assert deltas[k..][1..] == deltas[k + 1..];
          calls := CollectDelta(calls, deltas[k]);
        }
      }
      if choice.finish.Some? && choice.finish.value != "" {
        finish := choice.finish;
      }
    }
    assert chunks[..|chunks|] == chunks;
    var toolCalls := Present(calls);
    return Message(if content == "" && |toolCalls| > 0 then None else Some(content), toolCalls,
                   if finish.Some? then finish else Some("stop"));
  }

  // ---------------------------------------------------------------- client side

  // A Map remembers the order in which its keys were first set.
  datatype Aggregated = Aggregated(content: string, calls: map<nat, ToolCall>, order: seq<nat>, finish: Option<string>)

  function AggregateDelta(a: Aggregated, d: ToolDelta): Aggregated {
    var existing := if d.index in a.calls then a.calls[d.index] else ToolCall("", "", "");
    var named := if OrEmpty(d.id) != "" then existing.(id := d.id.value) else existing;
    var full :=
      if d.fn.None? then named
      else ToolCall(named.id,
                    if OrEmpty(d.fn.value.name) != "" then d.fn.value.name.value else named.name,
                    Extended(named.arguments, d.fn.value.arguments));
    a.(calls := a.calls[d.index := full], order := if d.index in a.calls then a.order else a.order + [d.index])
  }

  function AggregateDeltas(a: Aggregated, ds: seq<ToolDelta>): Aggregated
    decreases |ds|
  {
    if |ds| == 0 then a else AggregateDeltas(AggregateDelta(a, ds[0]), ds[1..])
  }

  function Aggregate(a: Aggregated, chunk: Chunk): Aggregated {
    var b := a.(content := Extended(a.content, chunk.delta.content));
    var c := if chunk.delta.toolCalls.Some? then AggregateDeltas(b, chunk.delta.toolCalls.value) else b;
    if OrEmpty(chunk.finish) != "" then c.(finish := chunk.finish) else c
  }

  function AggregateAll(a: Aggregated, chunks: seq<Chunk>): Aggregated {
    if |chunks| == 0 then a else Aggregate(AggregateAll(a, chunks[..|chunks| - 1]), chunks[|chunks| - 1])
  }

  function Ordered(calls: map<nat, ToolCall>, order: seq<nat>): seq<ToolCall> {
    if |order| == 0 then []
    else (if order[0] in calls then [calls[order[0]]] else []) + Ordered(calls, order[1..])
  }

  const EMPTY := Aggregated("", map[], [], None)

  function AggregatedMessage(a: Aggregated): Message {
    Message(if a.content == "" then None else Some(a.content), Ordered(a.calls, a.order), a.finish)
  }

  // One line of the stream; JSON.parse may fail.
  function AggregateLine(a: Aggregated, line: string, parse: string -> Option<Chunk>): Aggregated {
    var trimmed := Trim(line);
    if !("data:" <= trimmed) then a
    else
      var payload := Trim(trimmed[5..]);
      if payload == "" || payload == "[DONE]" then a
      else
        var chunk := parse(payload);
        if chunk.None? then a else Aggregate(a, chunk.value)
  }

  function AggregateLines(a: Aggregated, lines: seq<string>, parse: string -> Option<Chunk>): Aggregated {
    if |lines| == 0 then a else AggregateLine(AggregateLines(a, lines[..|lines| - 1], parse), lines[|lines| - 1], parse)
  }

  // The lines of a text that end in a line feed.
  function CompleteLines(text: string): seq<string> {
    var parts := Split(text, '\n');
    parts[..|parts| - 1]
  }

  lemma SplitLine(line: string, buf: string)
    requires '\n' !in line
    ensures Split(line + ['\n'] + buf, '\n') == [line] + Split(buf, '\n')
  {
    SplitWithoutSeparator(line, '\n');
    SplitAtSeparator(line, '\n', buf);
  }

  // The parts of a text that ends its line: its lines and an empty rest.
  lemma SplitPast(front: string, rest: string)
    ensures Split(front + ['\n'] + rest, '\n') == Split(front, '\n') + Split(rest, '\n')
    ensures CompleteLines(front + ['\n']) == Split(front, '\n')
  {
    SplitAtSeparator(front, '\n', rest);
    SplitAtSeparator(front, '\n', "");
    assert front + ['\n'] + "" == front + ['\n'];
    assert Split("", '\n') == [""];
  }

  lemma InitOfConcat(a: seq<string>, b: seq<string>)
    requires |b| > 0
    ensures (a + b)[..|a + b| - 1] == a + b[..|b| - 1]
  {
  }

  lemma RegroupLines(past: string, line: string, buf: string)
    ensures past == "" ==> past + line + "\n" + buf == line + ['\n'] + buf
    ensures past != "" && past[|past| - 1] == '\n' ==>
              var front := past[..|past| - 1];
              past == front + ['\n'] && past + line + "\n" + buf == front + ['\n'] + (line + ['\n'] + buf)
  {
  }

  lemma CompleteLinesExtend(past: string, line: string, buf: string)
    requires '\n' !in line && LineEnd(past)
    ensures CompleteLines(past + line + "\n" + buf) == CompleteLines(past) + [line] + CompleteLines(buf)
  {
    SplitLine(line, buf);
    RegroupLines(past, line, buf);
    InitOfConcat([line], Split(buf, '\n'));
    hide Split;
    if past == "" {
      NoLines();
    } else {
      var front := past[..|past| - 1];
      SplitPast(front, line + ['\n'] + buf);
      InitOfConcat(Split(front, '\n'), [line] + Split(buf, '\n'));
    }
  }

  lemma NoLines()
    ensures CompleteLines("") == []
    ensures forall parse :: Heard("", parse) == EMPTY
  {
    assert Split("", '\n') == [""];
  }

  lemma CompleteLinesOfTail(past: string, buf: string)
    requires '\n' !in buf && LineEnd(past)
    ensures CompleteLines(past + buf) == CompleteLines(past)
  {
    SplitWithoutSeparator(buf, '\n');
    if past == "" {
      assert past + buf == buf;
    } else {
      var front := past[..|past| - 1];
      assert past == front + ['\n'] + "";
      SplitAtSeparator(front, '\n', "");
      assert past + buf == front + ['\n'] + buf;
      SplitAtSeparator(front, '\n', buf);
    }
  }

  lemma LineTaken(past: string, line: string, a: Aggregated, parse: string -> Option<Chunk>)
    requires '\n' !in line && LineEnd(past)
    ensures AggregateLines(a, CompleteLines(past + line + "\n"), parse)
            == AggregateLine(AggregateLines(a, CompleteLines(past), parse), line, parse)
  {
    var lines := CompleteLines(past);
    CompleteLinesExtend(past, line, "");
    assert past + line + "\n" + "" == past + line + "\n";
    assert CompleteLines("") == [];
    assert lines + [line] + [] == lines + [line];
    assert (lines + [line])[..|lines|] == lines;
  }

  ghost predicate LineEnd(past: string) {
    past == "" || past[|past| - 1] == '\n'
  }

  // What the lines of a consumed text amount to.
  ghost function Heard(past: string, parse: string -> Option<Chunk>): Aggregated {
    AggregateLines(EMPTY, CompleteLines(past), parse)
  }

  lemma Regroup(past: string, buf: string, nl: nat)
    requires nl < |buf| && buf[nl] == '\n'
    ensures (past + buf[..nl] + "\n") + buf[nl + 1..] == past + buf
    ensures LineEnd(past + buf[..nl] + "\n")
  {
    var next := past + buf[..nl] + "\n";
    assert next[|next| - 1] == '\n';
    assert buf == buf[..nl] + "\n" + buf[nl + 1..];
  }

  // The inner loop (lines 126-151): consume every complete line of the buffer.
  method TakeLines(buf: string, state: Aggregated, ghost past: string, parse: string -> Option<Chunk>)
      returns (rest: string, next: Aggregated, ghost taken: string)
    requires LineEnd(past) && state == Heard(past, parse)
    ensures taken + rest == past + buf && '\n' !in rest
    ensures LineEnd(taken) && next == Heard(taken, parse)
  {
    rest, next, taken := buf, state, past;
    var nl := IndexOf(rest, '\n');
    while nl < |rest|
      invariant nl == IndexOf(rest, '\n')
      invariant taken + rest == past + buf
      invariant LineEnd(taken) && next == Heard(taken, parse)
      decreases |rest|
    {
      LineTaken(taken, rest[..nl], EMPTY, parse);
      Regroup(taken, rest, nl);
      next := AggregateLine(next, rest[..nl], parse);
      taken := taken + rest[..nl] + "\n";
      rest := rest[nl + 1..];
      nl := IndexOf(rest, '\n');
    }
    assert rest[..nl] == rest;
  }

  lemma OneMorePiece(pieces: seq<string>, n: nat, past: string, buf: string)
    requires n < |pieces| && past + buf == Concat(pieces[..n])
    ensures past + (buf + pieces[n]) == Concat(pieces[..n + 1])
  {
    assert pieces[..n + 1][..n] == pieces[..n];
  }

  lemma HeardAll(past: string, buf: string, parse: string -> Option<Chunk>)
    requires '\n' !in buf && LineEnd(past)
    ensures Heard(past, parse) == AggregateLines(EMPTY, CompleteLines(past + buf), parse)
  {
    CompleteLinesOfTail(past, buf);
  }

  // The decoded pieces of the response body may be cut anywhere: only the complete lines
  // of the whole text count.
  method AggregateChatStream(pieces: seq<string>, parse: string -> Option<Chunk>) returns (message: Message)
    ensures message == AggregatedMessage(AggregateLines(EMPTY, CompleteLines(Concat(pieces)), parse))
  {
    var buf, state := "", EMPTY;
    ghost var past := "";
    NoLines();
    hide AggregateLines, CompleteLines, AggregatedMessage, Heard;
    for n := 0 to |pieces|
      invariant past + buf == Concat(pieces[..n]) && '\n' !in buf
      invariant LineEnd(past) && state == Heard(past, parse)
    {
      OneMorePiece(pieces, n, past, buf);
      hide Concat;
      buf, state, past := TakeLines(buf + pieces[n], state, past, parse);
    }
    assert pieces[..|pieces|] == pieces;
    HeardAll(past, buf, parse);
    return AggregatedMessage(state);
  }

  // ---------------------------------------------------------------- framing

  // JSON.stringify followed by JSON.parse, on the chunks of this proxy: one line without
  // outer white space that reads back as the chunk.
  ghost predicate Faithful(show: Chunk -> string, parse: string -> Option<Chunk>) {
    forall c :: parse(show(c)) == Some(c) && PlainLine(show(c))
  }

  // What the server writes for a streamed completion (packages/codex-proxy/src/server.ts:78-83).
  function Framed(chunks: seq<Chunk>, show: Chunk -> string): string {
    if |chunks| == 0 then ""
    else Framed(chunks[..|chunks| - 1], show) + ("data: " + show(chunks[|chunks| - 1]) + "\n\n")
  }

  lemma FramedLine(a: Aggregated, c: Chunk, show: Chunk -> string, parse: string -> Option<Chunk>)
    requires Faithful(show, parse)
    ensures AggregateLine(a, "data: " + show(c), parse) == Aggregate(a, c)
  {
    var s := show(c);
    assert parse(s) == Some(c) && PlainLine(s);
    var line := "data: " + s;
    assert line[|line| - 1] == s[|s| - 1];
    assert Trim(line) == line;
    assert line[5..] == " " + s;
    assert (" " + s)[1..] == s;
    assert TrimStart(" " + s) == s;
  }

  lemma BlankAndDoneLines(a: Aggregated, parse: string -> Option<Chunk>)
    ensures AggregateLine(a, "", parse) == a && AggregateLine(a, "data: [DONE]", parse) == a
  {
    var line := "data: [DONE]";
    assert Trim(line) == line;
    assert line[5..] == " [DONE]";
    assert " [DONE]"[1..] == "[DONE]";
    assert Trim(" [DONE]") == "[DONE]";
  }

  lemma {:induction false} FramedEnds(chunks: seq<Chunk>, show: Chunk -> string)
    ensures Framed(chunks, show) == "" || Framed(chunks, show)[|Framed(chunks, show)| - 1] == '\n'
  {
    if |chunks| > 0 {
      var f := "data: " + show(chunks[|chunks| - 1]) + "\n\n";
      assert f[|f| - 1] == '\n';
    }
  }

  // Two more lines of a framed text.
  lemma TwoMoreLines(past: string, line: string, a: Aggregated, parse: string -> Option<Chunk>)
    requires '\n' !in line && LineEnd(past)
    ensures AggregateLines(a, CompleteLines(past + (line + "\n\n")), parse)
            == AggregateLine(AggregateLine(AggregateLines(a, CompleteLines(past), parse), line, parse), "", parse)
  {
    var lines := CompleteLines(past);
    CompleteLinesExtend(past, line, "\n");
    assert past + line + "\n" + "\n" == past + (line + "\n\n");
    CompleteLinesExtend("", "", "");
    assert "" + "" + "\n" + "" == "\n";
    assert CompleteLines("\n") == [""];
    var all := lines + [line] + [""];
    assert all[..|all| - 1] == lines + [line];
    assert (lines + [line])[..|lines|] == lines;
  }

  lemma {:induction false} FramingKeepsChunks(chunks: seq<Chunk>, show: Chunk -> string, parse: string -> Option<Chunk>)
    requires Faithful(show, parse)
    ensures AggregateLines(EMPTY, CompleteLines(Framed(chunks, show)), parse) == AggregateAll(EMPTY, chunks)
  {
    if |chunks| == 0 {
      assert CompleteLines("") == [];
    } else {
      var init, c := chunks[..|chunks| - 1], chunks[|chunks| - 1];
      FramingKeepsChunks(init, show, parse);
      FramedEnds(init, show);
      var line := "data: " + show(c);
      assert PlainLine(show(c));
      assert line + "\n\n" == "data: " + show(c) + "\n\n";
      TwoMoreLines(Framed(init, show), line, EMPTY, parse);
      FramedLine(AggregateAll(EMPTY, init), c, show, parse);
      BlankAndDoneLines(AggregateAll(EMPTY, chunks), parse);
    }
  }
}
