// What the server's and the client's collectors make of arbitrary chunks, whoever sends them,
// and exactly when they agree (packages/codex-proxy/src/proxy.ts,
// packages/agent-runtime/src/agent-runtime.ts).
module ChunkAgreement {
  import opened Wrappers
  import opened Text
  import opened ResponsesStream
  import opened ChatCollectors
  import opened StreamAgreement

  // ---------------------------------------------------------------- what chunks say

  function DeltasOf(chunks: seq<Chunk>): seq<ToolDelta> {
    if |chunks| == 0 then []
    else
      var last := chunks[|chunks| - 1].delta.toolCalls;
      DeltasOf(chunks[..|chunks| - 1]) + if last.Some? then last.value else []
  }

  function ContentOf(chunks: seq<Chunk>): string {
    if |chunks| == 0 then "" else ContentOf(chunks[..|chunks| - 1]) + OrEmpty(chunks[|chunks| - 1].delta.content)
  }

  function FinishIn(chunks: seq<Chunk>): Option<string> {
    if |chunks| == 0 then None
    else if OrEmpty(chunks[|chunks| - 1].finish) != "" then chunks[|chunks| - 1].finish
    else FinishIn(chunks[..|chunks| - 1])
  }

  function NameIn(d: ToolDelta): string {
    if d.fn.None? then "" else OrEmpty(d.fn.value.name)
  }

  function ArgumentsIn(d: ToolDelta): string {
    if d.fn.None? then "" else OrEmpty(d.fn.value.arguments)
  }

  // The indices in the order in which they first appear.
  function Firsts(ds: seq<ToolDelta>): seq<nat> {
    if |ds| == 0 then []
    else
      var before, index := Firsts(ds[..|ds| - 1]), ds[|ds| - 1].index;
      if index in before then before else before + [index]
  }

  // The last id sent for an index.
  function IdOf(ds: seq<ToolDelta>, index: nat): string {
    if |ds| == 0 then ""
    else if ds[|ds| - 1].index == index && OrEmpty(ds[|ds| - 1].id) != "" then ds[|ds| - 1].id.value
    else IdOf(ds[..|ds| - 1], index)
  }

  // The names sent for an index, empty ones apart.
  function NamesOf(ds: seq<ToolDelta>, index: nat): seq<string> {
    if |ds| == 0 then []
    else
      NamesOf(ds[..|ds| - 1], index)
      + if ds[|ds| - 1].index == index && NameIn(ds[|ds| - 1]) != "" then [NameIn(ds[|ds| - 1])] else []
  }

  function ArgumentsSent(ds: seq<ToolDelta>, index: nat): string {
    if |ds| == 0 then ""
    else ArgumentsSent(ds[..|ds| - 1], index) + if ds[|ds| - 1].index == index then ArgumentsIn(ds[|ds| - 1]) else ""
  }

  function LastOf(names: seq<string>): string {
    if |names| == 0 then "" else names[|names| - 1]
  }

  function ServerCall(ds: seq<ToolDelta>, index: nat): ToolCall {
    ToolCall(IdOf(ds, index), Concat(NamesOf(ds, index)), ArgumentsSent(ds, index))
  }

  function ClientCall(ds: seq<ToolDelta>, index: nat): ToolCall {
    ToolCall(IdOf(ds, index), LastOf(NamesOf(ds, index)), ArgumentsSent(ds, index))
  }

  // ---------------------------------------------------------------- what the collectors hold

  lemma {:induction false} CollectDeltasAppend(calls: seq<Option<ToolCall>>, a: seq<ToolDelta>, b: seq<ToolDelta>)
    ensures CollectDeltas(calls, a + b) == CollectDeltas(CollectDeltas(calls, a), b)
    decreases |a|
  {
    if |a| == 0 {
      assert a + b == b;
    } else {
      assert (a + b)[1..] == a[1..] + b;
      CollectDeltasAppend(CollectDelta(calls, a[0]), a[1..], b);
    }
  }

  lemma {:induction false} AggregateDeltasAppend(s: Aggregated, a: seq<ToolDelta>, b: seq<ToolDelta>)
    ensures AggregateDeltas(s, a + b) == AggregateDeltas(AggregateDeltas(s, a), b)
    decreases |a|
  {
    if |a| == 0 {
      assert a + b == b;
    } else {
      assert (a + b)[1..] == a[1..] + b;
      AggregateDeltasAppend(AggregateDelta(s, a[0]), a[1..], b);
    }
  }

  lemma LastDelta(ds: seq<ToolDelta>, calls: seq<Option<ToolCall>>, a: Aggregated)
    requires |ds| > 0
    ensures CollectDeltas(calls, ds) == CollectDelta(CollectDeltas(calls, ds[..|ds| - 1]), ds[|ds| - 1])
    ensures AggregateDeltas(a, ds) == AggregateDelta(AggregateDeltas(a, ds[..|ds| - 1]), ds[|ds| - 1])
  {
    var init, d := ds[..|ds| - 1], ds[|ds| - 1];
    assert ds == init + [d];
    CollectDeltasAppend(calls, init, [d]);
    AggregateDeltasAppend(a, init, [d]);
    ToolChunkOnce(NOTHING.(calls := CollectDeltas(calls, init)), AggregateDeltas(a, init), d);
    assert [d][1..] == [];
  }

  // What the server holds after the deltas: at every index that was named the call they
  // spell, names concatenated, and holes elsewhere.
  ghost predicate ServerHolds(calls: seq<Option<ToolCall>>, ds: seq<ToolDelta>) {
    && (forall i :: 0 <= i < |calls| ==> calls[i] == if i in Firsts(ds) then Some(ServerCall(ds, i)) else None)
    && forall i :: i in Firsts(ds) ==> i < |calls|
  }

  // What the client holds: the calls with their last names, in the order of their first deltas.
  ghost predicate ClientHolds(a: Aggregated, ds: seq<ToolDelta>) {
    && a.order == Firsts(ds)
    && (forall i :: i in a.calls <==> i in Firsts(ds))
    && forall i :: i in a.calls ==> a.calls[i] == ClientCall(ds, i)
  }

  // A delta says something of its own index only.
  lemma OtherIndex(ds: seq<ToolDelta>, index: nat)
    requires |ds| > 0 && ds[|ds| - 1].index != index
    ensures ServerCall(ds, index) == ServerCall(ds[..|ds| - 1], index)
    ensures ClientCall(ds, index) == ClientCall(ds[..|ds| - 1], index)
    ensures index in Firsts(ds) <==> index in Firsts(ds[..|ds| - 1])
  {
    var names, text := NamesOf(ds[..|ds| - 1], index), ArgumentsSent(ds[..|ds| - 1], index);
    assert names + [] == names && text + "" == text;
  }

  lemma {:induction false} NothingNamed(ds: seq<ToolDelta>, index: nat)
    requires index !in Firsts(ds)
    ensures IdOf(ds, index) == "" && NamesOf(ds, index) == [] && ArgumentsSent(ds, index) == ""
  {
    if |ds| > 0 {
      assert ds[|ds| - 1].index != index;
      NothingNamed(ds[..|ds| - 1], index);
    }
  }

  // One delta continues both calls of its index.
  lemma SameIndex(ds: seq<ToolDelta>)
    requires |ds| > 0
    ensures var before, d := ds[..|ds| - 1], ds[|ds| - 1];
            var id := if OrEmpty(d.id) != "" then d.id.value else IdOf(before, d.index);
            && d.index in Firsts(ds)
            && ServerCall(ds, d.index)
               == ToolCall(id, Concat(NamesOf(before, d.index)) + NameIn(d),
                           ArgumentsSent(before, d.index) + ArgumentsIn(d))
            && ClientCall(ds, d.index)
               == ToolCall(id, if NameIn(d) != "" then NameIn(d) else LastOf(NamesOf(before, d.index)),
                           ArgumentsSent(before, d.index) + ArgumentsIn(d))
  {
    var before, d := ds[..|ds| - 1], ds[|ds| - 1];
    var names := NamesOf(before, d.index);
    if NameIn(d) != "" {
      assert (names + [NameIn(d)])[..|names|] == names;
    } else {
      assert names + [] == names && Concat(names) + "" == Concat(names);
    }
  }

  lemma CollectOne(calls: seq<Option<ToolCall>>, d: ToolDelta)
    ensures var r := CollectDelta(calls, d);
            var known := d.index < |calls| && calls[d.index].Some?;
            var call := if known then calls[d.index].value else ToolCall("", "", "");
            && |r| == (if d.index < |calls| then |calls| else d.index + 1)
            && (forall i :: 0 <= i < |r| && i != d.index ==> r[i] == if i < |calls| then calls[i] else None)
            && r[d.index] == Some(ToolCall(if OrEmpty(d.id) != "" then d.id.value else call.id,
                                           call.name + NameIn(d), call.arguments + ArgumentsIn(d)))
  {
    var call := if d.index < |calls| && calls[d.index].Some? then calls[d.index].value else ToolCall("", "", "");
    if d.fn.Some? {
      ExtendedIsConcatenation(call.name, d.fn.value.name);
      ExtendedIsConcatenation(call.arguments, d.fn.value.arguments);
    } else {
      assert call.name + "" == call.name && call.arguments + "" == call.arguments;
    }
  }

  lemma AggregateOne(a: Aggregated, d: ToolDelta)
    ensures var r, call := AggregateDelta(a, d), if d.index in a.calls then a.calls[d.index] else ToolCall("", "", "");
            && r.content == a.content && r.finish == a.finish
            && r.order == (if d.index in a.calls then a.order else a.order + [d.index])
            && r.calls == a.calls[d.index := ToolCall(if OrEmpty(d.id) != "" then d.id.value else call.id,
                                                      if NameIn(d) != "" then NameIn(d) else call.name,
                                                      call.arguments + ArgumentsIn(d))]
  {
    var call := if d.index in a.calls then a.calls[d.index] else ToolCall("", "", "");
    if d.fn.Some? {
      ExtendedIsConcatenation(call.arguments, d.fn.value.arguments);
    } else {
      assert call.arguments + "" == call.arguments;
    }
  }

  lemma ServerHoldsNext(calls: seq<Option<ToolCall>>, ds: seq<ToolDelta>)
    requires |ds| > 0 && ServerHolds(calls, ds[..|ds| - 1])
    ensures ServerHolds(CollectDelta(calls, ds[|ds| - 1]), ds)
  {
    var before, d := ds[..|ds| - 1], ds[|ds| - 1];
    var r := CollectDelta(calls, d);
    CollectOne(calls, d);
    SameIndex(ds);
    if d.index !in Firsts(before) { NothingNamed(before, d.index); }
    hide CollectDelta, IdOf, NamesOf, ArgumentsSent, NameIn, ArgumentsIn;
    forall i | 0 <= i < |r| ensures r[i] == if i in Firsts(ds) then Some(ServerCall(ds, i)) else None {
      if i != d.index { OtherIndex(ds, i); }
    }
  }

  lemma ClientHoldsNext(a: Aggregated, ds: seq<ToolDelta>)
    requires |ds| > 0 && ClientHolds(a, ds[..|ds| - 1])
    ensures ClientHolds(AggregateDelta(a, ds[|ds| - 1]), ds)
  {
    var before, d := ds[..|ds| - 1], ds[|ds| - 1];
    var r := AggregateDelta(a, d);
    AggregateOne(a, d);
    hide AggregateDelta, IdOf, NamesOf, ArgumentsSent, NameIn, ArgumentsIn, ClientCall;
    ClientContinues(a, ds);
    forall i | i in r.calls ensures r.calls[i] == ClientCall(ds, i) {
      if i != d.index { OtherIndex(ds, i); }
    }
  }

  lemma ClientContinues(a: Aggregated, ds: seq<ToolDelta>)
    requires |ds| > 0 && ClientHolds(a, ds[..|ds| - 1])
    ensures AggregateDelta(a, ds[|ds| - 1]).calls[ds[|ds| - 1].index] == ClientCall(ds, ds[|ds| - 1].index)
  {
    var before, d := ds[..|ds| - 1], ds[|ds| - 1];
    AggregateOne(a, d);
    SameIndex(ds);
    if d.index !in Firsts(before) { NothingNamed(before, d.index); }
    hide AggregateDelta, IdOf, NamesOf, ArgumentsSent, NameIn, ArgumentsIn, ServerCall, Concat;
  }

  lemma {:induction false} DeltasAreHeld(ds: seq<ToolDelta>, a: Aggregated)
    requires a.calls == map[] && a.order == []
    ensures ServerHolds(CollectDeltas([], ds), ds) && ClientHolds(AggregateDeltas(a, ds), ds)
    ensures AggregateDeltas(a, ds).content == a.content && AggregateDeltas(a, ds).finish == a.finish
  {
    if |ds| > 0 {
      var init := ds[..|ds| - 1];
      DeltasAreHeld(init, a);
      LastDelta(ds, [], a);
      ServerHoldsNext(CollectDeltas([], init), ds);
      ClientHoldsNext(AggregateDeltas(a, init), ds);
      AggregateOne(AggregateDeltas(a, init), ds[|ds| - 1]);
      hide ServerHolds, ClientHolds, CollectDelta, AggregateDelta, CollectDeltas, AggregateDeltas;
    }
  }

  // What both collectors hold after any chunks.
  lemma {:induction false} ChunksAreHeld(chunks: seq<Chunk>)
    ensures CollectAll(NOTHING, chunks)
            == Collected(ContentOf(chunks), CollectDeltas([], DeltasOf(chunks)), FinishIn(chunks))
    ensures var a := AggregateDeltas(EMPTY, DeltasOf(chunks));
            AggregateAll(EMPTY, chunks) == Aggregated(ContentOf(chunks), a.calls, a.order, FinishIn(chunks))
  {
    if |chunks| > 0 {
      var init, last := chunks[..|chunks| - 1], chunks[|chunks| - 1];
      ChunksAreHeld(init);
      ExtendedIsConcatenation(ContentOf(init), last.delta.content);
      var ds, more := DeltasOf(init), if last.delta.toolCalls.Some? then last.delta.toolCalls.value else [];
      CollectDeltasAppend([], ds, more);
      AggregateDeltasAppend(EMPTY, ds, more);
      OnlyCallsMatter(AggregateAll(EMPTY, init).(content := ContentOf(chunks)), AggregateDeltas(EMPTY, ds), more);
    }
  }

  // Deltas neither read nor change the content and the finish reason.
  lemma {:induction false} OnlyCallsMatter(a: Aggregated, b: Aggregated, ds: seq<ToolDelta>)
    requires a.calls == b.calls && a.order == b.order
    ensures AggregateDeltas(a, ds)
            == Aggregated(a.content, AggregateDeltas(b, ds).calls, AggregateDeltas(b, ds).order, a.finish)
    decreases |ds|
  {
    if |ds| > 0 { OnlyCallsMatter(AggregateDelta(a, ds[0]), AggregateDelta(b, ds[0]), ds[1..]); }
  }

  // ---------------------------------------------------------------- when they agree

  datatype IndexedCall = IndexedCall(index: nat, call: ToolCall)

  // The calls of the server, without the holes.
  function ServerList(calls: seq<Option<ToolCall>>): seq<IndexedCall> {
    if |calls| == 0 then []
    else
      var n := |calls| - 1;
      ServerList(calls[..n]) + if calls[n].Some? then [IndexedCall(n, calls[n].value)] else []
  }

  // The calls of the client.
  function ClientList(calls: map<nat, ToolCall>, order: seq<nat>): seq<IndexedCall> {
    if |order| == 0 then []
    else (if order[0] in calls then [IndexedCall(order[0], calls[order[0]])] else []) + ClientList(calls, order[1..])
  }

  function Calls(list: seq<IndexedCall>): (calls: seq<ToolCall>)
    ensures |calls| == |list| && forall i :: 0 <= i < |list| ==> calls[i] == list[i].call
  {
    seq(|list|, i requires 0 <= i < |list| => list[i].call)
  }

  function Indices(list: seq<IndexedCall>): (indices: seq<nat>)
    ensures |indices| == |list| && forall i :: 0 <= i < |list| ==> indices[i] == list[i].index
  {
    seq(|list|, i requires 0 <= i < |list| => list[i].index)
  }

  ghost predicate Increasing(order: seq<nat>) {
    forall i, j :: 0 <= i < j < |order| ==> order[i] < order[j]
  }

  // The indices in increasing order.
  function Arranged(order: seq<nat>): seq<nat> {
    if |order| == 0 then [] else Insert(order[0], Arranged(order[1..]))
  }

  function Insert(index: nat, order: seq<nat>): seq<nat> {
    if |order| == 0 || index <= order[0] then [index] + order else [order[0]] + Insert(index, order[1..])
  }

  // The calls are the same in order of index and in order of first appearance.
  ghost predicate SameInOrder(ds: seq<ToolDelta>) {
    var firsts := Firsts(ds);
    && |Arranged(firsts)| == |firsts|
    && forall k :: 0 <= k < |firsts| ==> ServerCall(ds, Arranged(firsts)[k]) == ServerCall(ds, firsts[k])
  }

  ghost predicate DifferentIds(ds: seq<ToolDelta>) {
    forall i, j :: i in Firsts(ds) && j in Firsts(ds) && i != j ==> IdOf(ds, i) != IdOf(ds, j)
  }

  ghost predicate OneNameEach(ds: seq<ToolDelta>) {
    forall i: nat :: |NamesOf(ds, i)| <= 1
  }

  lemma {:induction false} PresentAppend(a: seq<Option<ToolCall>>, b: seq<Option<ToolCall>>)
    ensures Present(a + b) == Present(a) + Present(b)
    decreases |a|
  {
    if |a| == 0 {
      assert a + b == b;
    } else {
      var head := if a[0].Some? then [a[0].value] else [];
      assert (a + b)[1..] == a[1..] + b && (a + b)[0] == a[0];
      PresentAppend(a[1..], b);
      Associate(head, Present(a[1..]), Present(b));
    }
  }

  lemma Associate(a: seq<ToolCall>, b: seq<ToolCall>, c: seq<ToolCall>)
    ensures a + (b + c) == a + b + c
  {
  }

  // The tool calls of the messages are these lists.
  lemma {:induction false} PresentIsServerList(calls: seq<Option<ToolCall>>)
    ensures Present(calls) == Calls(ServerList(calls))
  {
    if |calls| > 0 {
      var init, last := calls[..|calls| - 1], calls[|calls| - 1];
      PresentIsServerList(init);
      PresentAppend(init, [last]);
      assert calls == init + [last] && [last][1..] == [];
      assert Present([last]) == if last.Some? then [last.value] else [];
    }
  }

  lemma {:induction false} OrderedIsClientList(calls: map<nat, ToolCall>, order: seq<nat>)
    ensures Ordered(calls, order) == Calls(ClientList(calls, order))
  {
    if |order| > 0 { OrderedIsClientList(calls, order[1..]); }
  }

  ghost predicate ByIndex(list: seq<IndexedCall>) {
    forall i, j :: 0 <= i < j < |list| ==> list[i].index < list[j].index
  }

  ghost predicate ListsCalls(list: seq<IndexedCall>, calls: seq<Option<ToolCall>>) {
    && (forall i :: 0 <= i < |list| ==> list[i].index < |calls| && calls[list[i].index] == Some(list[i].call))
    && forall k :: 0 <= k < |calls| && calls[k].Some? ==> IndexedCall(k, calls[k].value) in list
  }

  lemma AppendCall(list: seq<IndexedCall>, calls: seq<Option<ToolCall>>, last: Option<ToolCall>)
    requires ByIndex(list) && ListsCalls(list, calls)
    ensures var longer := list + if last.Some? then [IndexedCall(|calls|, last.value)] else [];
            ByIndex(longer) && ListsCalls(longer, calls + [last])
  {
    var longer := list + if last.Some? then [IndexedCall(|calls|, last.value)] else [];
    forall k | 0 <= k < |calls| + 1 && (calls + [last])[k].Some?
      ensures IndexedCall(k, (calls + [last])[k].value) in longer
    {
      if k == |calls| { assert longer[|list|] == IndexedCall(k, last.value); }
    }
  }

  // The server lists every index it holds once, in increasing order.
  lemma {:induction false} ServerListFacts(calls: seq<Option<ToolCall>>)
    ensures ByIndex(ServerList(calls)) && ListsCalls(ServerList(calls), calls)
  {
    if |calls| > 0 {
      var n := |calls| - 1;
      ServerListFacts(calls[..n]);
      AppendCall(ServerList(calls[..n]), calls[..n], calls[n]);
      assert calls == calls[..n] + [calls[n]];
      hide ByIndex, ListsCalls;
    }
  }

  lemma {:induction false} ClientListFacts(calls: map<nat, ToolCall>, order: seq<nat>)
    requires forall i :: 0 <= i < |order| ==> order[i] in calls
    ensures var list := ClientList(calls, order);
            |list| == |order| && forall i :: 0 <= i < |order| ==> list[i] == IndexedCall(order[i], calls[order[i]])
  {
    if |order| > 0 {
      assert forall i :: 0 <= i < |order| - 1 ==> order[1..][i] == order[i + 1];
      ClientListFacts(calls, order[1..]);
    }
  }

  // Two increasing sequences with the same elements are the same.
  lemma {:induction false} IncreasingIsUnique(a: seq<nat>, b: seq<nat>)
    requires Increasing(a) && Increasing(b) && forall k :: k in a <==> k in b
    ensures a == b
    decreases |a| + |b|
  {
    assert (|a| > 0 ==> a[|a| - 1] in b) && (|b| > 0 ==> b[|b| - 1] in a);
    if |a| > 0 && |b| > 0 {
      var m, n := |a| - 1, |b| - 1;
      LastIsGreatest(a, b[n]);
      LastIsGreatest(b, a[m]);
      InitMembers(a);
      InitMembers(b);
      forall k ensures k in a[..m] <==> k in b[..n] { assert k in a <==> k in b; }
      IncreasingIsUnique(a[..m], b[..n]);
      assert a == a[..m] + [a[m]] && b == b[..n] + [b[n]];
    }
  }

  lemma LastIsGreatest(a: seq<nat>, k: nat)
    requires Increasing(a) && k in a
    ensures k <= a[|a| - 1]
  {
  }

  lemma InitMembers(a: seq<nat>)
    requires Increasing(a) && |a| > 0
    ensures forall k :: k in a[..|a| - 1] <==> k in a && k != a[|a| - 1]
  {
    forall k ensures k in a[..|a| - 1] <==> k in a && k != a[|a| - 1] {
      if k in a && k != a[|a| - 1] {
        var i :| 0 <= i < |a| && a[i] == k;
        assert a[..|a| - 1][i] == k;
      }
    }
  }

  // Concatenating non-empty names gives the last one exactly when there is at most one.
  lemma {:induction false} NamesAreNonEmpty(ds: seq<ToolDelta>, index: nat)
    ensures forall i :: 0 <= i < |NamesOf(ds, index)| ==> NamesOf(ds, index)[i] != ""
  {
    if |ds| > 0 { NamesAreNonEmpty(ds[..|ds| - 1], index); }
  }

  lemma ConcatIsLonger(names: seq<string>)
    requires forall i :: 0 <= i < |names| ==> names[i] != ""
    ensures |Concat(names)| >= |LastOf(names)|
    ensures |names| > 1 ==> |Concat(names)| > |LastOf(names)|
  {
    if |names| > 1 {
      var init := names[..|names| - 1];
      assert |Concat(init)| >= |init[|init| - 1]|;
    }
  }

  lemma ConcatIsLast(names: seq<string>)
    requires forall i :: 0 <= i < |names| ==> names[i] != ""
    ensures Concat(names) == LastOf(names) <==> |names| <= 1
  {
    ConcatIsLonger(names);
    if |names| == 1 { ConcatOne(names[0]); }
    assert |names| == 1 ==> names == [names[0]];
    hide Concat;
    assert |names| == 0 ==> Concat(names) == "" by { ConcatNone(); }
  }

  lemma ConcatOne(name: string)
    ensures Concat([name]) == name
  {
    assert [name][..0] == [] && "" + name == name;
  }

  lemma ConcatNone()
    ensures Concat([]) == ""
  {
  }

  lemma SameCallExactly(ds: seq<ToolDelta>, index: nat)
    ensures ServerCall(ds, index) == ClientCall(ds, index) <==> |NamesOf(ds, index)| <= 1
  {
    NamesAreNonEmpty(ds, index);
    ConcatIsLast(NamesOf(ds, index));
  }

  lemma NamedIsFirst(ds: seq<ToolDelta>, index: nat)
    requires |NamesOf(ds, index)| > 0
    ensures index in Firsts(ds)
  {
    if index !in Firsts(ds) { NothingNamed(ds, index); }
  }

  // The server lists its calls by index.
  lemma ServerListIs(server: seq<Option<ToolCall>>, ds: seq<ToolDelta>)
    requires ServerHolds(server, ds)
    ensures var a := ServerList(server);
            && Increasing(Indices(a)) && (forall k :: k in Indices(a) <==> k in Firsts(ds))
            && forall i :: 0 <= i < |a| ==> a[i].call == ServerCall(ds, a[i].index)
  {
    ServerListFacts(server);
    var a := ServerList(server);
    hide ServerList, ServerCall;
    assert ByIndex(a) && ListsCalls(a, server);
    forall k: nat ensures k in Indices(a) <==> k in Firsts(ds) {
      if k in Firsts(ds) {
        var i :| 0 <= i < |a| && a[i] == IndexedCall(k, server[k].value);
        assert Indices(a)[i] == k;
      }
      if k in Indices(a) {
        var i :| 0 <= i < |a| && Indices(a)[i] == k;
        assert a[i].index == k;
      }
    }
  }

  // The client lists them by first appearance.
  lemma ClientListIs(client: Aggregated, ds: seq<ToolDelta>)
    requires ClientHolds(client, ds)
    ensures var b := ClientList(client.calls, client.order);
            Indices(b) == Firsts(ds) && forall i :: 0 <= i < |b| ==> b[i].call == ClientCall(ds, b[i].index)
  {
    ClientListFacts(client.calls, client.order);
    hide ClientList, ClientCall;
  }

  // The two lists are the same exactly when the indices first appear in increasing order
  // and each is named at most once.
  lemma ListsAgree(server: seq<Option<ToolCall>>, client: Aggregated, ds: seq<ToolDelta>)
    requires ServerHolds(server, ds) && ClientHolds(client, ds)
    ensures ServerList(server) == ClientList(client.calls, client.order) <==> Increasing(Firsts(ds)) && OneNameEach(ds)
  {
    ServerListIs(server, ds);
    ClientListIs(client, ds);
    var a, b := ServerList(server), ClientList(client.calls, client.order);
    hide ServerList, ClientList, ServerHolds, ClientHolds, ServerCall, ClientCall, NamesOf, Firsts, Increasing;
    if a == b {
      forall i: nat ensures |NamesOf(ds, i)| <= 1 {
        SameCallExactly(ds, i);
        if |NamesOf(ds, i)| > 0 {
          NamedIsFirst(ds, i);
          var k :| 0 <= k < |Indices(b)| && Indices(b)[k] == i;
          assert b[k].call == ClientCall(ds, i) && a[k].call == ServerCall(ds, i);
        }
      }
    }
    if Increasing(Firsts(ds)) && OneNameEach(ds) {
      IncreasingIsUnique(Indices(a), Firsts(ds));
      forall k | 0 <= k < |a| ensures a[k] == b[k] {
        assert Indices(a)[k] == Indices(b)[k];
        SameCallExactly(ds, a[k].index);
      }
    }
  }

  // ---- the lists without their indices

  ghost predicate DistinctIndices(order: seq<nat>) {
    forall i, j :: 0 <= i < j < |order| ==> order[i] != order[j]
  }

  lemma {:induction false} FirstsAreDistinct(ds: seq<ToolDelta>)
    ensures DistinctIndices(Firsts(ds))
  {
    if |ds| > 0 { FirstsAreDistinct(ds[..|ds| - 1]); }
  }

  lemma ConsIncreasing(index: nat, order: seq<nat>)
    requires Increasing(order) && forall k :: k in order ==> index < k
    ensures Increasing([index] + order)
  {
    assert forall i :: 0 <= i < |order| ==> order[i] in order;
  }

  lemma ConsMembers(order: seq<nat>)
    requires |order| > 0
    ensures forall k :: k in order <==> k == order[0] || k in order[1..]
    ensures Increasing(order) ==> Increasing(order[1..]) && forall k :: k in order[1..] ==> order[0] < k
  {
    assert order == [order[0]] + order[1..];
  }

  lemma {:induction false} InsertFacts(index: nat, order: seq<nat>)
    requires Increasing(order) && index !in order
    ensures Increasing(Insert(index, order)) && |Insert(index, order)| == |order| + 1
    ensures forall k :: k in Insert(index, order) <==> k == index || k in order
  {
    hide Increasing;
    if |order| > 0 { ConsMembers(order); }
    if |order| == 0 || index <= order[0] {
      ConsIncreasing(index, order);
    } else {
      InsertFacts(index, order[1..]);
      ConsIncreasing(order[0], Insert(index, order[1..]));
    }
  }

  lemma {:induction false} ArrangedFacts(order: seq<nat>)
    requires DistinctIndices(order)
    ensures Increasing(Arranged(order)) && |Arranged(order)| == |order|
    ensures forall k :: k in Arranged(order) <==> k in order
  {
    if |order| > 0 {
      var rest := order[1..];
      assert forall i :: 0 <= i < |rest| ==> rest[i] == order[i + 1];
      ArrangedFacts(rest);
      assert order == [order[0]] + rest && order[0] !in rest;
      InsertFacts(order[0], Arranged(rest));
    }
  }

  // How much the names of the calls amount to on either side.
  function ServerLength(ds: seq<ToolDelta>, order: seq<nat>): nat {
    if |order| == 0 then 0 else |Concat(NamesOf(ds, order[0]))| + ServerLength(ds, order[1..])
  }

  function ClientLength(ds: seq<ToolDelta>, order: seq<nat>): nat {
    if |order| == 0 then 0 else |LastOf(NamesOf(ds, order[0]))| + ClientLength(ds, order[1..])
  }

  lemma {:induction false} InsertedLength(ds: seq<ToolDelta>, index: nat, order: seq<nat>)
    ensures ServerLength(ds, Insert(index, order)) == |Concat(NamesOf(ds, index))| + ServerLength(ds, order)
  {
    hide Concat, NamesOf;
    if |order| == 0 || index <= order[0] {
      assert ([index] + order)[1..] == order;
    } else {
      InsertedLength(ds, index, order[1..]);
      assert ([order[0]] + Insert(index, order[1..]))[1..] == Insert(index, order[1..]);
    }
  }

  lemma {:induction false} ArrangedLength(ds: seq<ToolDelta>, order: seq<nat>)
    ensures ServerLength(ds, Arranged(order)) == ServerLength(ds, order)
  {
    hide Concat, NamesOf;
    if |order| > 0 {
      ArrangedLength(ds, order[1..]);
      InsertedLength(ds, order[0], Arranged(order[1..]));
    }
  }

  lemma {:induction false} SameCallsSameLength(ds: seq<ToolDelta>, a: seq<nat>, b: seq<nat>)
    requires |a| == |b| && forall k :: 0 <= k < |a| ==> ServerCall(ds, a[k]) == ClientCall(ds, b[k])
    ensures ServerLength(ds, a) == ClientLength(ds, b)
  {
    if |a| > 0 {
      assert ServerCall(ds, a[0]).name == ClientCall(ds, b[0]).name;
      hide IdOf, NamesOf, ArgumentsSent, Concat, LastOf;
      assert forall k :: 0 <= k < |a| - 1 ==> a[1..][k] == a[k + 1] && b[1..][k] == b[k + 1];
      SameCallsSameLength(ds, a[1..], b[1..]);
    }
  }

  lemma {:induction false} LengthsAgree(ds: seq<ToolDelta>, order: seq<nat>)
    ensures ServerLength(ds, order) >= ClientLength(ds, order)
    ensures ServerLength(ds, order) == ClientLength(ds, order) ==> forall k :: k in order ==> |NamesOf(ds, k)| <= 1
  {
    if |order| > 0 {
      NamesAreNonEmpty(ds, order[0]);
      ConcatIsLonger(NamesOf(ds, order[0]));
      hide NamesOf, Concat, LastOf, IdOf, ArgumentsSent;
      LengthsAgree(ds, order[1..]);
      assert order == [order[0]] + order[1..];
    }
  }

  lemma ServerIndicesAre(server: seq<Option<ToolCall>>, ds: seq<ToolDelta>)
    requires ServerHolds(server, ds)
    ensures Indices(ServerList(server)) == Arranged(Firsts(ds)) && |Arranged(Firsts(ds))| == |Firsts(ds)|
  {
    ServerListIs(server, ds);
    FirstsAreDistinct(ds);
    ArrangedFacts(Firsts(ds));
    hide ServerList, ServerHolds, Increasing, Firsts, Arranged;
    IncreasingIsUnique(Indices(ServerList(server)), Arranged(Firsts(ds)));
  }

  // The calls of both sides by position.
  ghost predicate ByPosition(a: seq<IndexedCall>, b: seq<IndexedCall>, ds: seq<ToolDelta>) {
    var firsts, arranged := Firsts(ds), Arranged(Firsts(ds));
    && |a| == |b| == |firsts| == |arranged|
    && forall k :: 0 <= k < |a| ==> a[k].call == ServerCall(ds, arranged[k]) && b[k].call == ClientCall(ds, firsts[k])
  }

  lemma CallsByPosition(server: seq<Option<ToolCall>>, client: Aggregated, ds: seq<ToolDelta>)
    requires ServerHolds(server, ds) && ClientHolds(client, ds)
    ensures ByPosition(ServerList(server), ClientList(client.calls, client.order), ds)
  {
    ServerListIs(server, ds);
    ServerIndicesAre(server, ds);
    ClientListIs(client, ds);
    var a, b := ServerList(server), ClientList(client.calls, client.order);
    hide ServerList, ClientList, ServerHolds, ClientHolds, ServerCall, ClientCall, Firsts, Arranged, Increasing;
    forall k | 0 <= k < |a| ensures a[k].index == Indices(a)[k] {}
    forall k | 0 <= k < |b| ensures b[k].index == Indices(b)[k] {}
  }

  // The calls, without their indices, are the same exactly when each is named at most once
  // and they are the same in either order.
  lemma CallsAgree(a: seq<IndexedCall>, b: seq<IndexedCall>, ds: seq<ToolDelta>)
    requires ByPosition(a, b, ds)
    ensures Calls(a) == Calls(b) <==> OneNameEach(ds) && SameInOrder(ds)
  {
    var firsts, arranged := Firsts(ds), Arranged(Firsts(ds));
    hide ServerCall, ClientCall, NamesOf, Firsts, Arranged, OneNameEach;
    if Calls(a) == Calls(b) {
      forall k | 0 <= k < |a| ensures a[k].call == b[k].call { assert Calls(a)[k] == Calls(b)[k]; }
      SameCallsSameLength(ds, arranged, firsts);
      ArrangedLength(ds, firsts);
      LengthsAgree(ds, firsts);
      OnlyFirstsAreNamed(ds);
    }
    if OneNameEach(ds) { SidesAgree(ds); }
  }

  lemma SidesAgree(ds: seq<ToolDelta>)
    requires OneNameEach(ds)
    ensures forall k: nat :: ServerCall(ds, k) == ClientCall(ds, k)
  {
    hide ServerCall, ClientCall, NamesOf;
    forall k: nat ensures ServerCall(ds, k) == ClientCall(ds, k) { SameCallExactly(ds, k); }
  }

  lemma OnlyFirstsAreNamed(ds: seq<ToolDelta>)
    requires forall k :: k in Firsts(ds) ==> |NamesOf(ds, k)| <= 1
    ensures OneNameEach(ds)
  {
    hide Firsts, NamesOf;
    forall k: nat ensures |NamesOf(ds, k)| <= 1 {
      if |NamesOf(ds, k)| > 0 { NamedIsFirst(ds, k); }
    }
  }

  // Calls of different ids are the same in either order exactly when the indices first
  // appear in increasing order.
  lemma DifferentIdsAreInOrder(ds: seq<ToolDelta>)
    requires DifferentIds(ds)
    ensures SameInOrder(ds) <==> Increasing(Firsts(ds))
  {
    var firsts := Firsts(ds);
    FirstsAreDistinct(ds);
    ArrangedFacts(firsts);
    hide Firsts, Arranged;
    if SameInOrder(ds) {
      forall k | 0 <= k < |firsts| ensures Arranged(firsts)[k] == firsts[k] {
        assert Arranged(firsts)[k] in Arranged(firsts) && firsts[k] in firsts;
        assert ServerCall(ds, Arranged(firsts)[k]).id == ServerCall(ds, firsts[k]).id;
      }
      assert Arranged(firsts) == firsts;
    }
    if Increasing(firsts) { IncreasingIsUnique(Arranged(firsts), firsts); }
  }

  // On any chunks, whoever sent them: text and finish reason are the same, and the messages
  // hold the same tool calls exactly when each index is named in at most one delta and the
  // calls are the same in order of index and of first appearance. The calls with their
  // indices are the same exactly when the indices first appear in increasing order.
  lemma CollectorsAgreeExactly(chunks: seq<Chunk>)
    ensures var server, client, ds := CollectAll(NOTHING, chunks), AggregateAll(EMPTY, chunks), DeltasOf(chunks);
            && server.content == client.content == ContentOf(chunks)
            && server.finish == client.finish == FinishIn(chunks)
            && (CollectedMessage(server).toolCalls == AggregatedMessage(client).toolCalls
                <==> OneNameEach(ds) && SameInOrder(ds))
            && (ServerList(server.calls) == ClientList(client.calls, client.order)
                <==> Increasing(Firsts(ds)) && OneNameEach(ds))
  {
    var server, client, ds := CollectAll(NOTHING, chunks), AggregateAll(EMPTY, chunks), DeltasOf(chunks);
    hide *;
    ChunksAreHeld(chunks);
    CallsAreHeld(server, client, ds);
  }

  lemma CallsAreHeld(server: Collected, client: Aggregated, ds: seq<ToolDelta>)
    requires server.calls == CollectDeltas([], ds)
    requires client.calls == AggregateDeltas(EMPTY, ds).calls && client.order == AggregateDeltas(EMPTY, ds).order
    ensures ServerList(server.calls) == ClientList(client.calls, client.order)
            <==> Increasing(Firsts(ds)) && OneNameEach(ds)
    ensures CollectedMessage(server).toolCalls == AggregatedMessage(client).toolCalls
            <==> OneNameEach(ds) && SameInOrder(ds)
  {
    DeltasAreHeld(ds, EMPTY);
    var held := AggregateDeltas(EMPTY, ds);
    hide CollectDeltas, AggregateDeltas, ServerHolds, ClientHolds, ServerList, ClientList, Present, Ordered,
         Increasing, OneNameEach, Firsts, SameInOrder, ByPosition;
    ListsAgree(server.calls, held, ds);
    CallsByPosition(server.calls, held, ds);
    CallsAgree(ServerList(server.calls), ClientList(client.calls, client.order), ds);
    PresentIsServerList(server.calls);
    OrderedIsClientList(client.calls, client.order);
  }

  // When the calls have different ids, as a model's calls do, the messages hold the same
  // tool calls exactly when the indices first appear in increasing order and each index is
  // named in at most one delta.
  lemma DifferentIdsAgreeExactly(chunks: seq<Chunk>)
    requires DifferentIds(DeltasOf(chunks))
    ensures CollectedMessage(CollectAll(NOTHING, chunks)).toolCalls
            == AggregatedMessage(AggregateAll(EMPTY, chunks)).toolCalls
            <==> Increasing(Firsts(DeltasOf(chunks))) && OneNameEach(DeltasOf(chunks))
  {
    hide *;
    CollectorsAgreeExactly(chunks);
    DifferentIdsAreInOrder(DeltasOf(chunks));
  }

  // Calls that cannot be told apart hide the order: indices in decreasing order, and yet
  // the messages are the same.
  lemma EqualCallsHideTheOrder()
    ensures var d1 := ToolDelta(1, None, Some(FunctionDelta(Some("f"), None)));
            var d0 := ToolDelta(0, None, Some(FunctionDelta(Some("f"), None)));
            var chunks := [ToolChunk(d1), ToolChunk(d0)];
            && !Increasing(Firsts(DeltasOf(chunks)))
            && CollectedMessage(CollectAll(NOTHING, chunks)).toolCalls
               == AggregatedMessage(AggregateAll(EMPTY, chunks)).toolCalls
  {
    var d1 := ToolDelta(1, None, Some(FunctionDelta(Some("f"), None)));
    var d0 := ToolDelta(0, None, Some(FunctionDelta(Some("f"), None)));
    var chunks := [ToolChunk(d1), ToolChunk(d0)];
    DeltasOfTwo(d1, d0);
    NamelessCallsOf(d1, d0);
    FirstsOfTwo(d1, d0);
    hide *;
    CollectorsAgreeExactly(chunks);
    TwoEqualCalls([d1, d0]);
  }

  lemma TwoEqualCalls(ds: seq<ToolDelta>)
    requires Firsts(ds) == [1, 0] && ServerCall(ds, 0) == ServerCall(ds, 1)
    ensures SameInOrder(ds) && !Increasing(Firsts(ds))
  {
    hide ServerCall, Firsts;
    assert [1, 0][1..] == [0] && Arranged([0]) == [0];
    assert Arranged([1, 0]) == [0, 1];
  }

  // Two deltas without ids that send the same name for different indices.
  lemma NamelessCallsOf(d: ToolDelta, e: ToolDelta)
    requires d.index != e.index && d.id.None? && e.id.None? && d.fn == e.fn == Some(FunctionDelta(Some("f"), None))
    ensures OneNameEach([d, e]) && ServerCall([d, e], d.index) == ServerCall([d, e], e.index)
  {
    forall i: nat ensures |NamesOf([d, e], i)| <= 1 { NamelessPair(d, e, i); }
    NamelessPair(d, e, d.index);
    NamelessPair(d, e, e.index);
    hide NamesOf, IdOf, ArgumentsSent, Concat;
  }

  lemma NamelessPair(d: ToolDelta, e: ToolDelta, i: nat)
    requires d.index != e.index && d.id.None? && e.id.None? && d.fn == e.fn == Some(FunctionDelta(Some("f"), None))
    ensures NamesOf([d, e], i) == if i == d.index || i == e.index then ["f"] else []
    ensures IdOf([d, e], i) == "" && ArgumentsSent([d, e], i) == ""
  {
    assert [d, e][..1] == [d];
    NamelessCallOf(d, i);
  }

  lemma NamelessCallOf(d: ToolDelta, i: nat)
    requires d.id.None? && d.fn == Some(FunctionDelta(Some("f"), None))
    ensures NamesOf([d], i) == if i == d.index then ["f"] else []
    ensures IdOf([d], i) == "" && ArgumentsSent([d], i) == ""
  {
    var none: seq<ToolDelta> := [];
    assert [d][..0] == none;
    assert NamesOf(none, i) == [] && IdOf(none, i) == "" && ArgumentsSent(none, i) == "";
  }

  lemma DeltasOfTwo(d: ToolDelta, e: ToolDelta)
    ensures DeltasOf([ToolChunk(d), ToolChunk(e)]) == [d, e]
  {
    assert [ToolChunk(d), ToolChunk(e)][..1] == [ToolChunk(d)] && [ToolChunk(d)][..0] == [];
    assert DeltasOf([ToolChunk(d)]) == [d];
  }

  lemma FirstsOfTwo(d: ToolDelta, e: ToolDelta)
    requires d.index != e.index
    ensures Firsts([d, e]) == [d.index, e.index]
  {
    assert [d, e][..1] == [d] && [d][..0] == [];
    assert Firsts([d]) == [d.index];
  }

  // The order matters: calls whose second index comes first are listed in different orders.
  lemma OrderDisagrees()
    ensures var d1 := ToolDelta(1, Some("b"), Some(FunctionDelta(Some("x"), None)));
            var d0 := ToolDelta(0, Some("a"), Some(FunctionDelta(Some("y"), None)));
            var chunks := [ToolChunk(d1), ToolChunk(d0)];
            && CollectedMessage(CollectAll(NOTHING, chunks)).toolCalls
               == [ToolCall("a", "y", ""), ToolCall("b", "x", "")]
            && AggregatedMessage(AggregateAll(EMPTY, chunks)).toolCalls
               == [ToolCall("b", "x", ""), ToolCall("a", "y", "")]
  {
    var d1 := ToolDelta(1, Some("b"), Some(FunctionDelta(Some("x"), None)));
    var d0 := ToolDelta(0, Some("a"), Some(FunctionDelta(Some("y"), None)));
    TwoDeltas(d1, d0);
    ReversedOnServer();
    ReversedOnClient();
    hide CollectDelta, AggregateDelta, Present, Ordered;
  }

  lemma TwoDeltas(d: ToolDelta, e: ToolDelta)
    ensures var chunks := [ToolChunk(d), ToolChunk(e)];
            var c, a := CollectAll(NOTHING, chunks), AggregateAll(EMPTY, chunks);
            c.calls == CollectDelta(CollectDelta([], d), e) && a == AggregateDelta(AggregateDelta(EMPTY, d), e)
  {
    var c, a := NOTHING.(calls := CollectDelta([], d)), AggregateDelta(EMPTY, d);
    hide CollectDelta, AggregateDelta;
    CollectAllAppend(NOTHING, [ToolChunk(d)], [ToolChunk(e)]);
    AggregateAllAppend(EMPTY, [ToolChunk(d)], [ToolChunk(e)]);
    OneChunk(NOTHING, EMPTY, ToolChunk(d));
    ToolChunkOnce(NOTHING, EMPTY, d);
    OneChunk(c, a, ToolChunk(e));
    ToolChunkOnce(c, a, e);
  }

  lemma ReversedOnServer()
    ensures var d1 := ToolDelta(1, Some("b"), Some(FunctionDelta(Some("x"), None)));
            var d0 := ToolDelta(0, Some("a"), Some(FunctionDelta(Some("y"), None)));
            Present(CollectDelta(CollectDelta([], d1), d0)) == [ToolCall("a", "y", ""), ToolCall("b", "x", "")]
  {
    var d1 := ToolDelta(1, Some("b"), Some(FunctionDelta(Some("x"), None)));
    var d0 := ToolDelta(0, Some("a"), Some(FunctionDelta(Some("y"), None)));
    assert "" + "x" == "x" && "" + "y" == "y";
    assert CollectDelta([], d1) == [None, Some(ToolCall("b", "x", ""))];
    var both := CollectDelta([None, Some(ToolCall("b", "x", ""))], d0);
    assert both == [Some(ToolCall("a", "y", "")), Some(ToolCall("b", "x", ""))];
    var tail := [Some(ToolCall("b", "x", ""))];
    assert both[1..] == tail && tail[1..] == [];
    assert Present(tail) == [ToolCall("b", "x", "")];
  }

  lemma ReversedOnClient()
    ensures var d1 := ToolDelta(1, Some("b"), Some(FunctionDelta(Some("x"), None)));
            var d0 := ToolDelta(0, Some("a"), Some(FunctionDelta(Some("y"), None)));
            var a := AggregateDelta(AggregateDelta(EMPTY, d1), d0);
            Ordered(a.calls, a.order) == [ToolCall("b", "x", ""), ToolCall("a", "y", "")]
  {
    var d1 := ToolDelta(1, Some("b"), Some(FunctionDelta(Some("x"), None)));
    var d0 := ToolDelta(0, Some("a"), Some(FunctionDelta(Some("y"), None)));
    var one := AggregateDelta(EMPTY, d1);
    assert one.calls == map[1 := ToolCall("b", "x", "")] && one.order == [1];
    var two := AggregateDelta(one, d0);
    assert two.calls == map[1 := ToolCall("b", "x", ""), 0 := ToolCall("a", "y", "")] && two.order == [1, 0];
    assert [1, 0][1..] == [0] && [0][1..] == [];
    assert Ordered(two.calls, [0]) == [ToolCall("a", "y", "")];
  }
}
