// The chunks as the proxy writes them and as the agent reads them back
// (packages/codex-proxy/src/responses-stream.ts:29-36, packages/codex-proxy/src/server.ts:78-83,
// packages/agent-runtime/src/agent-runtime.ts:134-137).
module ChunkText {
  import opened Wrappers
  import opened Text
  import opened Json
  import opened JsonText
  import opened ResponsesStream
  import opened ChatCollectors
  import opened StreamAgreement

  // What all chunks of a response carry, and which of their tool deltas carry their type.
  datatype Meta = Meta(id: string, created: int, model: string, typed: ToolDelta -> bool)

  // ---------------------------------------------------------------- writing

  function Field(s: Option<string>): Js {
    if s.None? then Undefined else Str(s.value)
  }

  function FunctionJs(fn: FunctionDelta): Js {
    Object(["name", "arguments"], map["name" := Field(fn.name), "arguments" := Field(fn.arguments)])
  }

  function ToolDeltaJs(meta: Meta, d: ToolDelta): Js {
    Object(["index", "id", "type", "function"],
           map["index" := Number(d.index), "id" := Field(d.id),
               "type" := if meta.typed(d) then Str("function") else Undefined,
               "function" := if d.fn.None? then Undefined else FunctionJs(d.fn.value)])
  }

  function ToolDeltasJs(meta: Meta, ds: seq<ToolDelta>): Js {
    Array(seq(|ds|, i requires 0 <= i < |ds| => ToolDeltaJs(meta, ds[i])))
  }

  function DeltaJs(meta: Meta, d: Delta): Js {
    Object(["role", "content", "tool_calls"],
           map["role" := if d.assistant then Str("assistant") else Undefined, "content" := Field(d.content),
               "tool_calls" := if d.toolCalls.None? then Undefined else ToolDeltasJs(meta, d.toolCalls.value)])
  }

  function ChoiceJs(meta: Meta, c: Chunk): Js {
    Object(["index", "delta", "finish_reason"],
           map["index" := Number(0), "delta" := DeltaJs(meta, c.delta),
               "finish_reason" := if c.finish.None? then Null else Str(c.finish.value)])
  }

  // `chunk`
  function ChunkJs(meta: Meta, c: Chunk): Js {
    Object(["id", "object", "created", "model", "choices"],
           map["id" := Str(meta.id), "object" := Str("chat.completion.chunk"), "created" := Number(meta.created),
               "model" := Str(meta.model), "choices" := Array([ChoiceJs(meta, c)])])
  }

  // The words in a chunk that do not depend on the response.
  lemma ChunkWords(meta: Meta, c: Chunk, d: ToolDelta)
    ensures ChunkJs(meta, c).fields["object"] == Str("chat.completion.chunk")
    ensures DeltaJs(meta, c.delta).fields["role"] == if c.delta.assistant then Str("assistant") else Undefined
    ensures ToolDeltaJs(meta, d).fields["type"] == if meta.typed(d) then Str("function") else Undefined
  {
  }

  function Shown(meta: Meta): Chunk -> string {
    (c: Chunk) => Stringify(ChunkJs(meta, c))
  }

  // ---------------------------------------------------------------- reading

  function FieldsAt(fields: map<string, Value>, key: string): map<string, Value> {
    if key in fields && fields[key].VObject? then fields[key].fields else map[]
  }

  // One entry of `tool_calls`; a missing index is 0.
  function ReadToolDelta(v: Value): ToolDelta {
    if !v.VObject? then ToolDelta(0, None, None)
    else
      var index := ValueAt(v.fields, "index");
      var known := index.Some? && index.value.VNumber? && index.value.n >= 0;
      ToolDelta(if known then index.value.n else 0, TextAt(v.fields, "id"),
                if "function" in v.fields then
                  var fn := FieldsAt(v.fields, "function");
                  Some(FunctionDelta(TextAt(fn, "name"), TextAt(fn, "arguments")))
                else None)
  }

  // The first choice of a parsed chunk.
  function ReadChunk(v: Value): Option<Chunk> {
    if !v.VObject? || "choices" !in v.fields || !v.fields["choices"].VArray? || |v.fields["choices"].items| == 0
       || !v.fields["choices"].items[0].VObject? then None
    else
      var choice := v.fields["choices"].items[0].fields;
      var delta := FieldsAt(choice, "delta");
      Some(Chunk(Delta("role" in delta, TextAt(delta, "content"),
                       if "tool_calls" in delta && delta["tool_calls"].VArray? then
                         var calls := delta["tool_calls"].items;
                         Some(seq(|calls|, i requires 0 <= i < |calls| => ReadToolDelta(calls[i])))
                       else None),
                 TextAt(choice, "finish_reason")))
  }

  ghost function ReadText(text: string): Option<Chunk> {
    var v := Parse(text);
    if v.None? then None else ReadChunk(v.value)
  }

  // ---------------------------------------------------------------- well-formed objects

  predicate Atom(j: Js) {
    !j.Array? && !j.Object?
  }

  lemma AtomIsWellFormed(j: Js)
    requires Atom(j)
    ensures WellFormed(j)
  {
  }

  lemma ObjectIsWellFormed(order: seq<string>, fields: map<string, Js>)
    requires Distinct(order) && forall k :: k in order <==> k in fields
    requires forall k :: k in fields && !Atom(fields[k]) ==> WellFormed(fields[k])
    ensures WellFormed(Object(order, fields))
  {
    forall k | k in fields ensures WellFormed(fields[k]) {
      if Atom(fields[k]) { AtomIsWellFormed(fields[k]); }
    }
  }

  lemma FunctionIsWellFormed(fn: FunctionDelta)
    ensures WellFormed(FunctionJs(fn))
  {
    var j := FunctionJs(fn);
    hide WellFormed;
    ObjectIsWellFormed(j.order, j.fields);
  }

  lemma ToolDeltaIsWellFormed(meta: Meta, d: ToolDelta)
    ensures WellFormed(ToolDeltaJs(meta, d))
  {
    var j := ToolDeltaJs(meta, d);
    if d.fn.Some? { FunctionIsWellFormed(d.fn.value); }
    hide WellFormed, FunctionJs;
    ObjectIsWellFormed(j.order, j.fields);
  }

  lemma ToolDeltasAreWellFormed(meta: Meta, ds: seq<ToolDelta>)
    ensures WellFormed(ToolDeltasJs(meta, ds))
  {
    forall i | 0 <= i < |ds| ensures WellFormed(ToolDeltaJs(meta, ds[i])) && !ToolDeltaJs(meta, ds[i]).Undefined? {
      ToolDeltaIsWellFormed(meta, ds[i]);
    }
    hide ToolDeltaJs;
  }

  lemma DeltaIsWellFormed(meta: Meta, d: Delta)
    ensures WellFormed(DeltaJs(meta, d))
  {
    var j := DeltaJs(meta, d);
    if d.toolCalls.Some? { ToolDeltasAreWellFormed(meta, d.toolCalls.value); }
    hide WellFormed, ToolDeltasJs;
    ObjectIsWellFormed(j.order, j.fields);
  }

  lemma ChoiceIsWellFormed(meta: Meta, c: Chunk)
    ensures WellFormed(ChoiceJs(meta, c))
  {
    var j := ChoiceJs(meta, c);
    DeltaIsWellFormed(meta, c.delta);
    hide WellFormed, DeltaJs;
    ObjectIsWellFormed(j.order, j.fields);
  }

  lemma ChoicesAreWellFormed(meta: Meta, c: Chunk)
    ensures WellFormed(Array([ChoiceJs(meta, c)]))
  {
    ChoiceIsWellFormed(meta, c);
    assert !ChoiceJs(meta, c).Undefined?;
    hide ChoiceJs;
  }

  lemma ChunkIsWellFormed(meta: Meta, c: Chunk)
    ensures WellFormed(ChunkJs(meta, c))
  {
    var j := ChunkJs(meta, c);
    ChoicesAreWellFormed(meta, c);
    hide WellFormed, ChoiceJs;
    ObjectIsWellFormed(j.order, j.fields);
  }

  // ---------------------------------------------------------------- what is written is read back

  function MeaningOf(v: Js): Option<Value> {
    if v.Undefined? then None else Some(Meaning(v))
  }

  lemma ObjectMeans(j: Js)
    requires j.Object?
    ensures Meaning(j).VObject?
    ensures forall k :: ValueAt(Meaning(j).fields, k) == if k in j.fields then MeaningOf(j.fields[k]) else None
  {
  }

  lemma FieldMeans(s: Option<string>)
    ensures MeaningOf(Field(s)) == if s.None? then None else Some(VStr(s.value))
  {
  }

  lemma NumberMeans(n: int)
    ensures MeaningOf(Number(n)) == Some(VNumber(n))
  {
  }

  lemma TextAtIs(fields: map<string, Value>, key: string)
    ensures TextAt(fields, key) == var v := ValueAt(fields, key);
            if v.Some? && v.value.VStr? then Some(v.value.s) else None
  {
  }

  lemma FunctionMeans(fn: FunctionDelta)
    ensures Meaning(FunctionJs(fn)).VObject?
    ensures TextAt(Meaning(FunctionJs(fn)).fields, "name") == fn.name
    ensures TextAt(Meaning(FunctionJs(fn)).fields, "arguments") == fn.arguments
  {
    ObjectMeans(FunctionJs(fn));
    FieldMeans(fn.name);
    FieldMeans(fn.arguments);
    TextAtIs(Meaning(FunctionJs(fn)).fields, "name");
    TextAtIs(Meaning(FunctionJs(fn)).fields, "arguments");
    hide Meaning, MeaningOf, TextAt, ValueAt, Field;
  }

  lemma ToolDeltaMeans(meta: Meta, d: ToolDelta)
    ensures var v := Meaning(ToolDeltaJs(meta, d));
            && v.VObject? && ValueAt(v.fields, "index") == Some(VNumber(d.index)) && TextAt(v.fields, "id") == d.id
            && ValueAt(v.fields, "function") == if d.fn.None? then None else Some(Meaning(FunctionJs(d.fn.value)))
  {
    ObjectMeans(ToolDeltaJs(meta, d));
    NumberMeans(d.index);
    FieldMeans(d.id);
    TextAtIs(Meaning(ToolDeltaJs(meta, d)).fields, "id");
    assert d.fn.Some? ==> MeaningOf(FunctionJs(d.fn.value)) == Some(Meaning(FunctionJs(d.fn.value)));
    hide Meaning, TextAt, ValueAt, Field, FunctionJs;
  }

  lemma ToolDeltaReadsBack(meta: Meta, d: ToolDelta)
    ensures ReadToolDelta(Meaning(ToolDeltaJs(meta, d))) == d
  {
    ToolDeltaMeans(meta, d);
    if d.fn.Some? { FunctionMeans(d.fn.value); }
    hide Meaning, ToolDeltaJs, FunctionJs, TextAt;
  }

  lemma ToolDeltasReadBack(meta: Meta, ds: seq<ToolDelta>)
    ensures Meaning(ToolDeltasJs(meta, ds)).VArray?
    ensures var items := Meaning(ToolDeltasJs(meta, ds)).items;
            |items| == |ds| && forall i :: 0 <= i < |ds| ==> ReadToolDelta(items[i]) == ds[i]
  {
    forall i | 0 <= i < |ds| ensures ReadToolDelta(Meaning(ToolDeltaJs(meta, ds[i]))) == ds[i] {
      ToolDeltaReadsBack(meta, ds[i]);
    }
    hide ReadToolDelta, ToolDeltaJs;
  }

  lemma DeltaMeans(meta: Meta, d: Delta)
    ensures var v := Meaning(DeltaJs(meta, d));
            && v.VObject? && (ValueAt(v.fields, "role").Some? <==> d.assistant)
            && TextAt(v.fields, "content") == d.content
            && ValueAt(v.fields, "tool_calls")
               == if d.toolCalls.None? then None else Some(Meaning(ToolDeltasJs(meta, d.toolCalls.value)))
  {
    ObjectMeans(DeltaJs(meta, d));
    FieldMeans(d.content);
    FieldMeans(if d.assistant then Some("assistant") else None);
    TextAtIs(Meaning(DeltaJs(meta, d)).fields, "content");
    assert d.toolCalls.Some?
           ==> MeaningOf(ToolDeltasJs(meta, d.toolCalls.value)) == Some(Meaning(ToolDeltasJs(meta, d.toolCalls.value)));
    hide Meaning, TextAt, ValueAt, ToolDeltasJs;
  }

  lemma ChoiceMeans(meta: Meta, c: Chunk)
    ensures var v := Meaning(ChoiceJs(meta, c));
            && v.VObject? && ValueAt(v.fields, "delta") == Some(Meaning(DeltaJs(meta, c.delta)))
            && TextAt(v.fields, "finish_reason") == c.finish
  {
    ObjectMeans(ChoiceJs(meta, c));
    TextAtIs(Meaning(ChoiceJs(meta, c)).fields, "finish_reason");
    FieldMeans(c.finish);
    assert MeaningOf(Null) == Some(VNull);
    assert MeaningOf(DeltaJs(meta, c.delta)) == Some(Meaning(DeltaJs(meta, c.delta)));
    hide Meaning, TextAt, ValueAt, DeltaJs;
  }

  lemma ChunkMeans(meta: Meta, c: Chunk)
    ensures var v := Meaning(ChunkJs(meta, c));
            v.VObject? && ValueAt(v.fields, "choices") == Some(VArray([Meaning(ChoiceJs(meta, c))]))
  {
    ObjectMeans(ChunkJs(meta, c));
    OneItemMeans(ChoiceJs(meta, c));
    hide Meaning, ValueAt, ChoiceJs;
  }

  lemma OneItemMeans(j: Js)
    ensures MeaningOf(Array([j])) == Some(VArray([Meaning(j)]))
  {
    assert Meaning(Array([j])).items == [Meaning(j)];
  }

  lemma ChunkReadsBack(meta: Meta, c: Chunk)
    ensures ReadChunk(Meaning(ChunkJs(meta, c))) == Some(c)
  {
    ChoiceMeans(meta, c);
    ChunkMeans(meta, c);
    DeltaMeans(meta, c.delta);
    hide ChunkJs, ChoiceJs, DeltaJs, Meaning, ReadToolDelta, ToolDeltasJs;
    if c.delta.toolCalls.Some? {
      ToolDeltasReadBack(meta, c.delta.toolCalls.value);
      var items := Meaning(ToolDeltasJs(meta, c.delta.toolCalls.value)).items;
      assert seq(|items|, i requires 0 <= i < |items| => ReadToolDelta(items[i])) == c.delta.toolCalls.value;
    }
  }

  // Every chunk is written on one line and read back as itself.
  lemma ChunkTextIsFaithful(meta: Meta)
    ensures Faithful(Shown(meta), ReadText)
  {
    forall c ensures ReadText(Shown(meta)(c)) == Some(c) && PlainLine(Shown(meta)(c)) {
      ChunkTextReads(meta, c);
      hide ChunkJs, ReadText, PlainLine;
      assert Shown(meta)(c) == Stringify(ChunkJs(meta, c));
    }
  }

  lemma ChunkTextReads(meta: Meta, c: Chunk)
    ensures ReadText(Stringify(ChunkJs(meta, c))) == Some(c) && PlainLine(Stringify(ChunkJs(meta, c)))
  {
    ChunkIsWellFormed(meta, c);
    ChunkReadsBack(meta, c);
    ChunkIsObject(meta, c);
    hide ChunkJs, Parse, ReadChunk, Stringify, Meaning, WellFormed;
    ParseReadsBack(ChunkJs(meta, c));
    ObjectText(ChunkJs(meta, c));
    assert !IsSpace('{') && !IsSpace('}');
  }

  lemma ChunkIsObject(meta: Meta, c: Chunk)
    ensures ChunkJs(meta, c).Object?
  {
  }

  // From the events of the upstream response to the message on the agent's side, over the
  // body that the server writes: for every error-free response, both collectors give the
  // specified text and tool calls.
  lemma ResponseReachesTheAgent(events: seq<Event>, meta: Meta)
    requires ErrorFree(events)
    ensures var n := |events|;
            var chunks := ChunksOf(events, n);
            var server := CollectedMessage(CollectAll(NOTHING, chunks));
            var client := AggregatedMessage(AggregateLines(EMPTY, CompleteLines(Body(chunks, Shown(meta))), ReadText));
            && server.toolCalls == client.toolCalls == CallsOf(events, n)
            && server.content == (if TextOf(events, n) == "" && |CallsOf(events, n)| > 0 then None
                                  else Some(TextOf(events, n)))
            && client.content == (if TextOf(events, n) == "" then None else Some(TextOf(events, n)))
            && client.finish == FinishOf(events, n)
            && server.finish == (if FinishOf(events, n).Some? then FinishOf(events, n) else Some("stop"))
  {
    ChunkTextIsFaithful(meta);
    CollectorsAgree(events, Shown(meta), ReadText);
  }
}
