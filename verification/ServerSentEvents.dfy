// Splitting a stream of text chunks into JSON events (packages/codex-proxy/src/sse.ts).
module ServerSentEvents {
  import opened Wrappers
  import opened Text

  // What a generator has yielded, and whether it then threw on malformed JSON.
  datatype Outcome<J> = Outcome(events: seq<J>, failed: bool)

  function After<J>(events: seq<J>, rest: Outcome<J>): Outcome<J> {
    rest.(events := events + rest.events)
  }

  // The JSON text of a `data:` line, if it carries any.
  function DataOf(line: string): Option<string> {
    var trimmed := TrimStart(line);
    if !("data:" <= trimmed) then None
    else
      var data := Trim(trimmed[5..]);
      if data == "" || data == "[DONE]" then None else Some(data)
  }

  // The event of one line: none, or one, or malformed JSON.
  datatype LineEvent<J> = Silent | Event(event: J) | Malformed

  function EventOf<J>(line: string, parse: string -> Option<J>): LineEvent<J> {
    var data := DataOf(line);
    if data.None? then Silent
    else
      var event := parse(data.value);
      if event.None? then Malformed else Event(event.value)
  }

  // `parseFrame` on the lines of a frame: malformed JSON on any line loses the whole frame.
  function ParseLines<J>(lines: seq<string>, parse: string -> Option<J>): Option<seq<J>> {
    if |lines| == 0 then Some([])
    else
      var e, rest := EventOf(lines[0], parse), ParseLines(lines[1..], parse);
      if e.Malformed? || rest.None? then None
      else if e.Silent? then rest
      else Some([e.event] + rest.value)
  }

  function FrameEvents<J>(frame: string, parse: string -> Option<J>): Option<seq<J>> {
    ParseLines(Split(frame, '\n'), parse)
  }

  function Prepend<J>(out: seq<J>, rest: Option<seq<J>>): Option<seq<J>> {
    if rest.None? then None else Some(out + rest.value)
  }

  lemma PrependFacts<J>(xs: seq<J>, ys: seq<J>, rest: Option<seq<J>>)
    ensures Prepend([], rest) == rest
    ensures Prepend(xs, Prepend(ys, rest)) == Prepend(xs + ys, rest)
    ensures Prepend(xs, Some([])) == Some(xs)
  {
    if rest.Some? {
      assert [] + rest.value == rest.value;
      assert xs + (ys + rest.value) == (xs + ys) + rest.value;
    }
    assert xs + [] == xs;
  }

  method ParseFrame<J>(frame: string, parse: string -> Option<J>) returns (r: Option<seq<J>>)
    ensures r == FrameEvents(frame, parse)
  {
    var lines, out := Split(frame, '\n'), [];
    assert lines[0..] == lines;
    PrependFacts(out, [], ParseLines(lines, parse));
    for n := 0 to |lines|
      invariant FrameEvents(frame, parse) == Prepend(out, ParseLines(lines[n..], parse))
    {
      assert lines[n..][1..] == lines[n + 1..];
      var e := EventOf(lines[n], parse);
      match e
      case Silent =>
      case Malformed => return None;
      case Event(event) =>
        PrependFacts(out, [event], ParseLines(lines[n + 1..], parse));
        out := out + [event];
    }
    PrependFacts(out, [], None);
    return Some(out);
  }

  lemma {:induction false} ParseLinesAppend<J>(xs: seq<string>, ys: seq<string>, parse: string -> Option<J>)
    ensures var x, y := ParseLines(xs, parse), ParseLines(ys, parse);
            ParseLines(xs + ys, parse) == if x.None? then None else Prepend(x.value, y)
  {
    if |xs| == 0 {
      assert xs + ys == ys;
      PrependFacts<J>([], [], ParseLines(ys, parse));
    } else {
      assert (xs + ys)[1..] == xs[1..] + ys;
      ParseLinesAppend(xs[1..], ys, parse);
      var e := EventOf(xs[0], parse);
      if e.Event? && ParseLines(xs[1..], parse).Some? {
        PrependFacts([e.event], ParseLines(xs[1..], parse).value, ParseLines(ys, parse));
      }
    }
  }

  // The first blank line, or the length of the text.
  function BlankLine(text: string): (i: nat)
    ensures i <= |text|
    ensures i < |text| ==> BlankAt(text, i)
    ensures forall j :: 0 <= j < i ==> !BlankAt(text, j)
  {
    if |text| < 2 then |text|
    else if BlankAt(text, 0) then 0
    else
      var i := BlankLine(text[1..]);
      assert forall j :: 0 < j < |text| ==> BlankAt(text, j) == BlankAt(text[1..], j - 1);
      1 + i
  }

  predicate BlankAt(text: string, i: nat) {
    i + 1 < |text| && text[i] == '\n' && text[i + 1] == '\n'
  }

  // A text cut at its blank lines, from the left.
  function Frames(text: string): seq<string>
    decreases |text|
  {
    var i := BlankLine(text);
    if i == |text| then [text] else [text[..i]] + Frames(text[i + 2..])
  }

  // What the frames yield before the first one that throws.
  function Yield<J>(frames: seq<string>, parse: string -> Option<J>): Outcome<J> {
    if |frames| == 0 then Outcome([], false)
    else
      var r := FrameEvents(frames[0], parse);
      if r.None? then Outcome([], true) else After(r.value, Yield(frames[1..], parse))
  }

  // The first complete frame of a text, whatever text follows.
  lemma FirstFrame<J>(buffer: string, future: string, parse: string -> Option<J>)
    requires BlankLine(buffer) < |buffer|
    ensures var i := BlankLine(buffer);
            var r := FrameEvents(buffer[..i], parse);
            && i + 2 <= |buffer|
            && Yield(Frames(buffer + future), parse)
               == if r.None? then Outcome([], true) else After(r.value, Yield(Frames(buffer[i + 2..] + future), parse))
  {
    BlankLineStays(buffer, future);
    var i, text := BlankLine(buffer), buffer + future;
    Cut(buffer, future, i);
    FramesAt(text, i, parse);
  }

  lemma FramesAt<J>(text: string, i: nat, parse: string -> Option<J>)
    requires i == BlankLine(text) && i + 2 <= |text|
    ensures var r := FrameEvents(text[..i], parse);
            Yield(Frames(text), parse)
            == if r.None? then Outcome([], true) else After(r.value, Yield(Frames(text[i + 2..]), parse))
  {
    hide FrameEvents, BlankLine;
    var frame, rest := text[..i], Frames(text[i + 2..]);
    assert Frames(text) == [frame] + rest;
    hide Frames;
    assert ([frame] + rest)[1..] == rest;
  }

  lemma Cut(buffer: string, future: string, i: nat)
    requires i + 2 <= |buffer|
    ensures (buffer + future)[..i] == buffer[..i]
    ensures (buffer + future)[i + 2..] == buffer[i + 2..] + future
  {
  }

  lemma CutAtBlank(text: string, i: nat)
    requires BlankAt(text, i)
    ensures text == text[..i] + "\n\n" + text[i + 2..]
  {
  }

  // A blank line stays the first one when more text arrives.
  lemma BlankLineStays(buffer: string, future: string)
    requires BlankLine(buffer) < |buffer|
    ensures BlankLine(buffer) + 2 <= |buffer|
    ensures BlankLine(buffer + future) == BlankLine(buffer)
  {
    var i, text := BlankLine(buffer), buffer + future;
    assert BlankAt(buffer, i) && BlankAt(text, i);
    assert forall j :: 0 <= j < i ==> BlankAt(text, j) == BlankAt(buffer, j);
  }

  // The inner loop (lines 23-30): take every complete frame out of the buffer, whatever
  // text is still to come.
  method TakeFrames<J>(buffer: string, yielded: seq<J>, parse: string -> Option<J>, ghost future: string)
      returns (rest: string, outcome: Outcome<J>)
    ensures outcome.failed ==> outcome == After(yielded, Yield(Frames(buffer + future), parse))
    ensures !outcome.failed ==>
              After(outcome.events, Yield(Frames(rest + future), parse))
              == After(yielded, Yield(Frames(buffer + future), parse))
    ensures !outcome.failed ==> BlankLine(rest) == |rest|
  {
    rest := buffer;
    var out := yielded;
    var i := BlankLine(rest);
    while i < |rest|
      invariant i == BlankLine(rest)
      invariant After(out, Yield(Frames(rest + future), parse)) == After(yielded, Yield(Frames(buffer + future), parse))
      decreases |rest|
    {
      FirstFrame(rest, future, parse);
      var events := ParseFrame(rest[..i], parse);
      rest := rest[i + 2..];
      if events.None? {
        return rest, Outcome(out, true);
      }
      AfterAfter(out, events.value, Yield(Frames(rest + future), parse));
      out := out + events.value;
      i := BlankLine(rest);
    }
    return rest, Outcome(out, false);
  }

  lemma AfterAfter<J>(x: seq<J>, y: seq<J>, o: Outcome<J>)
    ensures After(x, After(y, o)) == After(x + y, o)
  {
    assert x + (y + o.events) == (x + y) + o.events;
  }

  // `parseSSEEvents`: what it yields depends only on the whole text, not on the chunks.
  method ParseSSEEvents<J>(chunks: seq<string>, parse: string -> Option<J>) returns (outcome: Outcome<J>)
    ensures outcome == Yield(Frames(Concat(chunks)), parse)
  {
    var buffer := "";
    outcome := Outcome([], false);
    assert chunks[0..] == chunks && "" + Concat(chunks) == Concat(chunks);
    assert BlankLine(buffer) == |buffer| && Concat([]) == "";
    hide Frames, Yield, FrameEvents, BlankLine, Concat;
    for n := 0 to |chunks|
      invariant !outcome.failed && BlankLine(buffer) == |buffer|
      invariant After(outcome.events, Yield(Frames(buffer + Concat(chunks[n..])), parse))
                == Yield(Frames(Concat(chunks)), parse)
    {
      ghost var future := Concat(chunks[n + 1..]);
      ConcatHead(chunks[n..]);
      assert chunks[n..][1..] == chunks[n + 1..];
      assert buffer + Concat(chunks[n..]) == buffer + chunks[n] + future;
      buffer, outcome := TakeFrames(buffer + chunks[n], outcome.events, parse, future);
      if outcome.failed {
        return outcome;
      }
    }
    assert chunks[|chunks|..] == [];
    assert buffer + Concat([]) == buffer;
    var last := ParseFrame(buffer, parse);
    LastFrame(buffer, parse);
    outcome := if last.None? then Outcome(outcome.events, true) else Outcome(outcome.events + last.value, false);
  }

  lemma LastFrame<J>(buffer: string, parse: string -> Option<J>)
    requires BlankLine(buffer) == |buffer|
    ensures var r := FrameEvents(buffer, parse);
            Yield(Frames(buffer), parse) == if r.None? then Outcome([], true) else Outcome(r.value, false)
  {
    assert [buffer][1..] == [];
    assert Yield([], parse) == Outcome([], false);
  }

  // ---------------------------------------------------------------- line by line

  lemma LinesAtBlankLine<J>(frame: string, rest: string, parse: string -> Option<J>)
    ensures var x, y := FrameEvents(frame, parse), FrameEvents(rest, parse);
            FrameEvents(frame + "\n\n" + rest, parse) == if x.None? || y.None? then None else Some(x.value + y.value)
  {
    assert frame + "\n\n" + rest == frame + ['\n'] + ("" + ['\n'] + rest);
    SplitAtSeparator(frame, '\n', "" + ['\n'] + rest);
    SplitAtSeparator("", '\n', rest);
    assert Split("", '\n') == [""];
    ParseLinesAppend(Split(frame, '\n'), [""] + Split(rest, '\n'), parse);
    ParseLinesAppend([""], Split(rest, '\n'), parse);
    assert [""][1..] == [] && EventOf("", parse).Silent?;
    assert ParseLines([""], parse) == Some([]);
  }

  // Frame boundaries never affect the events: a text fails exactly when one of its lines is
  // malformed, and otherwise yields what its lines yield one by one.
  lemma {:induction false} FramesAreLines<J>(text: string, parse: string -> Option<J>)
    ensures var y, lines := Yield(Frames(text), parse), FrameEvents(text, parse);
            && (y.failed <==> lines.None?)
            && (!y.failed ==> y.events == lines.value)
    decreases |text|
  {
    var i := BlankLine(text);
    hide FrameEvents, Frames, Yield, BlankLine;
    if i == |text| {
      LastFrame(text, parse);
    } else {
      CutAtBlank(text, i);
      FramesAreLines(text[i + 2..], parse);
      FramesAt(text, i, parse);
      LinesAtBlankLine(text[..i], text[i + 2..], parse);
    }
  }

  // ---------------------------------------------------------------- which lines carry events

  // A line that carries this text: `data:` and the text, with space before and around.
  ghost predicate Carries(line: string, data: string) {
    && Trimmed(data) && data != "[DONE]"
    && exists indent, before, after ::
         Blank(indent) && Blank(before) && Blank(after) && line == indent + "data:" + before + data + after
  }

  // A line yields the event of the text it carries, and a line that carries none yields none.
  lemma DataOfExactly(line: string, data: string)
    ensures DataOf(line) == Some(data) <==> Carries(line, data)
  {
    hide Carries;
    if DataOf(line) == Some(data) { DataIsCarried(line, data); }
    if Carries(line, data) { CarriedIsData(line, data); }
  }

  // A line that carries no text yields nothing, like one without the prefix or with a blank
  // payload; every other line yields the event of its text or is malformed.
  lemma LineYields<J>(line: string, parse: string -> Option<J>)
    ensures EventOf(line, parse).Silent? <==> forall data :: !Carries(line, data)
    ensures forall data :: Carries(line, data) ==>
              EventOf(line, parse) == match parse(data) case Some(event) => Event(event) case None => Malformed
    ensures !("data:" <= TrimStart(line)) ==> EventOf(line, parse).Silent?
    ensures forall space :: line == "data:" + space && Blank(space) ==> EventOf(line, parse).Silent?
  {
    forall data ensures DataOf(line) == Some(data) <==> Carries(line, data) { DataOfExactly(line, data); }
    forall space | line == "data:" + space && Blank(space) ensures EventOf(line, parse).Silent? {
      assert !IsSpace(line[0]) && TrimStart(line) == line && line[5..] == space;
      assert space + "" == space;
      TrimStartOf(space, "");
    }
    hide Carries, TrimStart, Trim;
  }

  lemma DataIsCarried(line: string, data: string)
    requires DataOf(line) == Some(data)
    ensures Carries(line, data)
  {
    hide Trimmed, Blank, TrimStart, Trim;
    var indent := TrimStartParts(line);
    var payload := TrimStart(line)[5..];
    var before, after := TrimParts(payload);
    assert TrimStart(line) == "data:" + payload;
    Regroup5(indent, before, data, after);
  }

  lemma CarriedIsData(line: string, data: string)
    requires Carries(line, data)
    ensures DataOf(line) == Some(data)
  {
    var indent, before, after :|
      Blank(indent) && Blank(before) && Blank(after) && line == indent + "data:" + before + data + after;
    Regroup5(indent, before, data, after);
    var rest := "data:" + (before + data + after);
    assert !IsSpace('d') && rest[0] == 'd' && data != "";
    hide Trimmed, Blank, TrimStart, Trim, IsSpace;
    TrimStartOf(indent, rest);
    assert rest[5..] == before + data + after;
    TrimOf(before, data, after);
  }

  lemma Regroup5(indent: string, before: string, data: string, after: string)
    ensures indent + "data:" + before + data + after == indent + ("data:" + (before + data + after))
  {
  }

  // ---------------------------------------------------------------- round trip

  // What a server writes for these texts, closed by the final marker.
  function Served(texts: seq<string>): string {
    if |texts| == 0 then "data: [DONE]\n\n" else "data: " + texts[0] + "\n\n" + Served(texts[1..])
  }

  lemma PlainLineIsCarried(data: string)
    requires PlainLine(data)
    ensures DataOf("data: " + data) == Some(data)
  {
    assert "data: " + data == "" + "data:" + " " + data + "";
    assert Blank("") && Blank(" ");
    assert Carries("data: " + data, data);
    DataOfExactly("data: " + data, data);
  }

  lemma FramesOfLine(line: string, rest: string)
    requires '\n' !in line && |line| > 0
    ensures Frames(line + "\n\n" + rest) == [line] + Frames(rest)
  {
    var text := line + "\n\n" + rest;
    assert BlankAt(text, |line|);
    assert forall j :: 0 <= j < |line| ==> text[j] == line[j] && line[j] in line;
    assert forall j :: 0 <= j < |line| ==> !BlankAt(text, j);
    assert BlankLine(text) == |line|;
    assert text[..|line|] == line && text[|line| + 2..] == rest;
  }

  lemma EventsOfLine<J>(line: string, parse: string -> Option<J>)
    requires '\n' !in line
    ensures FrameEvents(line, parse) == match EventOf(line, parse)
                                       case Silent => Some([])
                                       case Malformed => None
                                       case Event(event) => Some([event])
  {
    SplitWithoutSeparator(line, '\n');
    hide Split, EventOf;
    assert [line][1..] == [];
    assert ParseLines([], parse) == Some([]);
    var e := EventOf(line, parse);
    assert FrameEvents(line, parse) == ParseLines([line], parse);
    if e.Event? { assert [e.event] + [] == [e.event]; }
  }

  lemma DoneIsSilent<J>(parse: string -> Option<J>)
    ensures EventOf("data: [DONE]", parse).Silent? && EventOf("", parse).Silent?
  {
    assert !Carries("", "");
    var done, rest := "data: [DONE]", " [DONE]";
    assert done[5..] == rest && !IsSpace(done[0]) && TrimStart(done) == done;
    assert rest == " " + "[DONE]" + "";
    assert Blank(" ") && Blank("");
    assert "[DONE]"[0] == '[' && "[DONE]"[5] == ']' && Trimmed("[DONE]");
    TrimOf(" ", "[DONE]", "");
    assert "data:" <= done;
  }

  // The events of these texts in order, up to the first that does not parse.
  ghost predicate YieldsTexts<J>(y: Outcome<J>, texts: seq<string>, parse: string -> Option<J>) {
    && |y.events| <= |texts|
    && (forall i :: 0 <= i < |y.events| ==> parse(texts[i]) == Some(y.events[i]))
    && (y.failed <==> |y.events| < |texts|)
    && (y.failed ==> parse(texts[|y.events|]).None?)
  }

  lemma YieldsOneMore<J>(y: Outcome<J>, texts: seq<string>, parse: string -> Option<J>)
    requires |texts| > 0
    requires match parse(texts[0])
             case None => y == Outcome([], true)
             case Some(event) => |y.events| > 0 && y.events[0] == event
                                 && YieldsTexts(Outcome(y.events[1..], y.failed), texts[1..], parse)
    ensures YieldsTexts(y, texts, parse)
  {
    if parse(texts[0]).Some? {
      var later := y.events[1..];
      forall i | 0 <= i < |y.events| ensures parse(texts[i]) == Some(y.events[i]) {
        if i > 0 { assert texts[1..][i - 1] == texts[i] && later[i - 1] == y.events[i]; }
      }
      if y.failed { assert texts[1..][|later|] == texts[|y.events|]; }
    }
  }

  lemma NothingYields<J>(parse: string -> Option<J>)
    ensures Frames("") == [""]
    ensures Yield([], parse) == Outcome([], false)
    ensures After([], Yield([], parse)) == Outcome([], false)
  {
  }

  lemma ServedNothing<J>(parse: string -> Option<J>)
    ensures Yield(Frames("data: [DONE]" + "\n\n" + ""), parse) == Outcome([], false)
  {
    hide *;
    var done := "data: [DONE]";
    FramesOfLine(done, "");
    NothingYields(parse);
    DoneIsSilent(parse);
    EventsOfLine(done, parse);
    EventsOfLine("", parse);
    assert FrameEvents(done, parse) == FrameEvents("", parse) == Some([]);
    assert [""] == [""] + [];
    YieldOne(done, [""], parse);
    YieldOne("", [], parse);
  }

  lemma ServedOne<J>(text: string, rest: string, parse: string -> Option<J>)
    requires PlainLine(text)
    ensures Yield(Frames("data: " + text + "\n\n" + rest), parse)
            == match parse(text)
               case None => Outcome([], true)
               case Some(event) => After([event], Yield(Frames(rest), parse))
  {
    hide Frames, FrameEvents, DataOf;
    var line := "data: " + text;
    FramesOfLine(line, rest);
    EventsOfLine(line, parse);
    PlainLineIsCarried(text);
    hide PlainLine, Yield;
    YieldOne(line, Frames(rest), parse);
  }

  // The texts that a server writes are yielded as their events, in order, up to the first that
  // does not parse; that one makes the generator throw.
  lemma {:induction false} ServedEvents<J>(texts: seq<string>, parse: string -> Option<J>)
    requires forall i :: 0 <= i < |texts| ==> PlainLine(texts[i])
    ensures YieldsTexts(Yield(Frames(Served(texts)), parse), texts, parse)
    decreases |texts|
  {
    hide Frames, Yield, PlainLine;
    if |texts| == 0 {
      assert Served(texts) == "data: [DONE]" + "\n\n" + "";
      ServedNothing(parse);
    } else {
      assert forall i :: 0 <= i < |texts| - 1 ==> texts[1..][i] == texts[i + 1];
      ServedEvents(texts[1..], parse);
      var rest := Served(texts[1..]);
      var later := Yield(Frames(rest), parse);
      ServedOne(texts[0], rest, parse);
      hide Served, YieldsTexts;
      if parse(texts[0]).Some? {
        var event := parse(texts[0]).value;
        assert ([event] + later.events)[1..] == later.events;
      }
      YieldsOneMore(Yield(Frames(Served(texts)), parse), texts, parse);
    }
  }

  lemma YieldOne<J>(line: string, rest: seq<string>, parse: string -> Option<J>)
    ensures Yield([line] + rest, parse) == match FrameEvents(line, parse)
                                          case None => Outcome([], true)
                                          case Some(events) => After(events, Yield(rest, parse))
  {
    assert ([line] + rest)[1..] == rest;
    hide FrameEvents;
  }
}
