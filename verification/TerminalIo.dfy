// The terminal pump between a supervised command and its viewer
// (apps/openape-pods/native/terminal-io.h).
module TerminalIo {
  import opened Wrappers

  newtype Byte = x: int | 0 <= x < 256

  const BUFFER_SIZE: nat := 65536
  const DIMENSIONS_SIZE: nat := 4

  datatype Size = Size(columns: int, rows: int)

  // What a system call does: a write accepts at most n bytes, a read finds these bytes
  // waiting (none of them at the end of the stream).
  datatype WriteOutcome = Accepts(n: nat) | WriteAgain | WriteError
  datatype ReadOutcome = Waiting(bytes: seq<Byte>) | ReadAgain | HungUp | ReadError

  // How `terminal_read` answers: 0, -1 at the end of the stream (EIO or errno 0), -1 otherwise.
  datatype Answer = Fine | AtEnd | Broken

  // ---------------------------------------------------------------- as values

  // The used part of the buffers.
  datatype Buffers = Buffers(input: seq<Byte>, output: seq<Byte>, dimensions: seq<Byte>, ended: bool)

  // Everything that passed so far: bytes from the viewer and to the command, bytes from the
  // command and to the viewer, resize requests received and resizes made.
  datatype Streams = Streams(typed: seq<Byte>, toCommand: seq<Byte>, fromCommand: seq<Byte>, shown: seq<Byte>,
                             requests: seq<Byte>, resizes: seq<Size>)

  datatype State = State(buffers: Buffers, streams: Streams)

  function Min(a: nat, b: nat): nat {
    if a < b then a else b
  }

  // `terminal_write`: how many bytes leave a buffer.
  function Written(buffer: seq<Byte>, o: WriteOutcome): (n: nat)
    ensures n <= |buffer|
  {
    if o.Accepts? then Min(o.n, |buffer|) else 0
  }

  predicate WriteFails(buffer: seq<Byte>, o: WriteOutcome) {
    |buffer| > 0 && o.WriteError?
  }

  // `terminal_read`: which bytes enter a buffer.
  function Received(buffer: seq<Byte>, limit: nat, o: ReadOutcome): (got: seq<Byte>)
    requires |buffer| <= limit
    ensures |buffer| + |got| <= limit
  {
    if o.Waiting? then o.bytes[..Min(|o.bytes|, limit - |buffer|)] else []
  }

  function ReadAnswer(buffer: seq<Byte>, limit: nat, o: ReadOutcome): Answer {
    if |buffer| == limit then Fine
    else
      match o
      case Waiting(bytes) => if bytes == [] then AtEnd else Fine
      case ReadAgain => Fine
      case HungUp => AtEnd
      case ReadError => Broken
  }

  function SendInput(s: State, o: WriteOutcome): State {
    var n := Written(s.buffers.input, o);
    s.(buffers := s.buffers.(input := s.buffers.input[n..]),
       streams := s.streams.(toCommand := s.streams.toCommand + s.buffers.input[..n]))
  }

  function SendOutput(s: State, o: WriteOutcome): State {
    var n := Written(s.buffers.output, o);
    s.(buffers := s.buffers.(output := s.buffers.output[n..]),
       streams := s.streams.(shown := s.streams.shown + s.buffers.output[..n]))
  }

  predicate Bounded(s: State) {
    |s.buffers.input| <= BUFFER_SIZE && |s.buffers.output| <= BUFFER_SIZE && |s.buffers.dimensions| <= DIMENSIONS_SIZE
  }

  function ReceiveInput(s: State, o: ReadOutcome): State
    requires Bounded(s)
  {
    var got := Received(s.buffers.input, BUFFER_SIZE, o);
    s.(buffers := s.buffers.(input := s.buffers.input + got), streams := s.streams.(typed := s.streams.typed + got))
  }

  function ReceiveDimensions(s: State, o: ReadOutcome): State
    requires Bounded(s)
  {
    var got := Received(s.buffers.dimensions, DIMENSIONS_SIZE, o);
    s.(buffers := s.buffers.(dimensions := s.buffers.dimensions + got),
       streams := s.streams.(requests := s.streams.requests + got))
  }

  function ReceiveOutput(s: State, o: ReadOutcome): State
    requires Bounded(s)
  {
    var got := Received(s.buffers.output, BUFFER_SIZE, o);
    s.(buffers := s.buffers.(output := s.buffers.output + got),
       streams := s.streams.(fromCommand := s.streams.fromCommand + got))
  }

  // Two little-endian 16-bit numbers.
  function SizeOf(d: seq<Byte>): Size
    requires |d| == DIMENSIONS_SIZE
  {
    Size(d[0] as int + 256 * d[1] as int, d[2] as int + 256 * d[3] as int)
  }

  predicate Acceptable(size: Size) {
    20 <= size.columns <= 500 && 5 <= size.rows <= 300
  }

  function Resize(s: State): State
    requires |s.buffers.dimensions| == DIMENSIONS_SIZE
  {
    s.(buffers := s.buffers.(dimensions := []),
       streams := s.streams.(resizes := s.streams.resizes + [SizeOf(s.buffers.dimensions)]))
  }

  // The outcomes of the system calls of one pump, in the order of the calls.
  datatype Calls = Calls(toCommand: WriteOutcome, shown: WriteOutcome, typed: ReadOutcome, requests: ReadOutcome,
                         resized: bool, fromCommand: ReadOutcome, shownAfter: WriteOutcome)

  // `terminal_pump`
  function Pumped(s: State, c: Calls): (State, bool)
    requires Bounded(s)
  {
    if WriteFails(s.buffers.input, c.toCommand) then (s, false)
    else
      var s1 := SendInput(s, c.toCommand);
      if WriteFails(s1.buffers.output, c.shown) then (s1, false)
      else
        var s2 := SendOutput(s1, c.shown);
        if ReadAnswer(s2.buffers.input, BUFFER_SIZE, c.typed) != Fine then (s2, false)
        else
          var s3 := ReceiveInput(s2, c.typed);
          if ReadAnswer(s3.buffers.dimensions, DIMENSIONS_SIZE, c.requests) != Fine then (s3, false)
          else
            var s4 := ReceiveDimensions(s3, c.requests);
            var whole := |s4.buffers.dimensions| == DIMENSIONS_SIZE;
            if whole && (!Acceptable(SizeOf(s4.buffers.dimensions)) || !c.resized) then (s4, false)
            else PumpedOutput(if whole then Resize(s4) else s4, c.fromCommand, c.shownAfter)
  }

  // The last part of a pump: the output of the command.
  function PumpedOutput(s: State, r: ReadOutcome, w: WriteOutcome): (State, bool)
    requires Bounded(s)
  {
    if s.buffers.ended then Shown(s, w)
    else
      match ReadAnswer(s.buffers.output, BUFFER_SIZE, r)
      case Broken => (s, false)
      case AtEnd => Shown(s.(buffers := s.buffers.(ended := true)), w)
      case Fine => Shown(ReceiveOutput(s, r), w)
  }

  function Shown(s: State, w: WriteOutcome): (State, bool) {
    if WriteFails(s.buffers.output, w) then (s, false) else (SendOutput(s, w), true)
  }

  // One round of `terminal_drain`: what is left to show, and whether it stops.
  datatype Round = Continues | Drained | Failed

  function DrainRound(s: State, r: ReadOutcome, w: WriteOutcome): (result: (State, Round))
    requires Bounded(s)
    ensures Bounded(result.0)
  {
    var reading := !s.buffers.ended && |s.buffers.output| < BUFFER_SIZE;
    if reading && r.ReadError? then (s, Failed)
    else
      var t := if !reading then s
               else if ReadAnswer(s.buffers.output, BUFFER_SIZE, r) == AtEnd
                 then s.(buffers := s.buffers.(ended := true))
               else ReceiveOutput(s, r);
      if WriteFails(t.buffers.output, w) then (t, Failed)
      else
        var u := SendOutput(t, w);
        (u, if u.buffers.ended && u.buffers.output == [] then Drained else Continues)
  }

  // `terminal_drain`, with the rounds that fit before its deadline; true is its 0.
  function DrainedAll(s: State, rounds: seq<(ReadOutcome, WriteOutcome)>): (State, bool)
    requires Bounded(s)
    decreases |rounds|
  {
    if |rounds| == 0 then (s, false)
    else
      var (t, round) := DrainRound(s, rounds[0].0, rounds[0].1);
      if round == Continues then DrainedAll(t, rounds[1..]) else (t, round == Drained)
  }

  // ---------------------------------------------------------------- conservation

  // The requests that a resize answered.
  function RequestOf(size: Size): (d: seq<Byte>)
    requires 0 <= size.columns < 65536 && 0 <= size.rows < 65536
    ensures |d| == DIMENSIONS_SIZE
  {
    [(size.columns % 256) as Byte, (size.columns / 256) as Byte, (size.rows % 256) as Byte, (size.rows / 256) as Byte]
  }

  function RequestsOf(sizes: seq<Size>): seq<Byte>
    requires forall z :: z in sizes ==> Acceptable(z)
  {
    if |sizes| == 0 then []
    else
      assert Acceptable(sizes[|sizes| - 1]);
      RequestsOf(sizes[..|sizes| - 1]) + RequestOf(sizes[|sizes| - 1])
  }

  // Bytes received are bytes delivered followed by bytes buffered, in order, both ways; the
  // requests received are the resizes made, four bytes each, followed by a part of the next.
  ghost predicate Conserved(s: State) {
    && Bounded(s)
    && s.streams.typed == s.streams.toCommand + s.buffers.input
    && s.streams.fromCommand == s.streams.shown + s.buffers.output
    && (forall z :: z in s.streams.resizes ==> Acceptable(z))
    && s.streams.requests == RequestsOf(s.streams.resizes) + s.buffers.dimensions
  }

  // Nothing that passed is ever taken back.
  predicate Extends(s: State, t: State) {
    && s.streams.typed <= t.streams.typed && s.streams.toCommand <= t.streams.toCommand
    && s.streams.fromCommand <= t.streams.fromCommand && s.streams.shown <= t.streams.shown
    && s.streams.requests <= t.streams.requests && s.streams.resizes <= t.streams.resizes
    && (s.buffers.ended ==> t.buffers.ended && t.streams.fromCommand == s.streams.fromCommand)
  }

  lemma SendInputConserves(s: State, o: WriteOutcome)
    requires Conserved(s)
    ensures Conserved(SendInput(s, o)) && Extends(s, SendInput(s, o))
  {
    hide RequestsOf, Acceptable;
    var n := Written(s.buffers.input, o);
    hide Written;
    assert s.streams.toCommand + s.buffers.input[..n] + s.buffers.input[n..] == s.streams.toCommand + s.buffers.input;
  }

  lemma SendOutputConserves(s: State, o: WriteOutcome)
    requires Conserved(s)
    ensures Conserved(SendOutput(s, o)) && Extends(s, SendOutput(s, o))
  {
    hide RequestsOf, Acceptable;
    var n := Written(s.buffers.output, o);
    hide Written;
    assert s.streams.shown + s.buffers.output[..n] + s.buffers.output[n..] == s.streams.shown + s.buffers.output;
  }

  lemma ReceiveConserves(s: State, o: ReadOutcome)
    requires Conserved(s)
    ensures Conserved(ReceiveInput(s, o)) && Extends(s, ReceiveInput(s, o))
    ensures Conserved(ReceiveDimensions(s, o)) && Extends(s, ReceiveDimensions(s, o))
    ensures Conserved(ReceiveOutput(s, o)) && (!s.buffers.ended ==> Extends(s, ReceiveOutput(s, o)))
  {
    hide RequestsOf, Acceptable, Received;
  }

  lemma RequestOfSize(d: seq<Byte>)
    requires |d| == DIMENSIONS_SIZE && Acceptable(SizeOf(d))
    ensures RequestOf(SizeOf(d)) == d
  {
    var c, r := SizeOf(d).columns, SizeOf(d).rows;
    assert c % 256 == d[0] as int && c / 256 == d[1] as int;
    assert r % 256 == d[2] as int && r / 256 == d[3] as int;
  }

  lemma ResizeConserves(s: State)
    requires Conserved(s) && |s.buffers.dimensions| == DIMENSIONS_SIZE && Acceptable(SizeOf(s.buffers.dimensions))
    ensures Conserved(Resize(s)) && Extends(s, Resize(s))
  {
    var size := SizeOf(s.buffers.dimensions);
    var sizes := s.streams.resizes + [size];
    RequestOfSize(s.buffers.dimensions);
    assert sizes[..|sizes| - 1] == s.streams.resizes;
    assert RequestsOf(sizes) == RequestsOf(s.streams.resizes) + s.buffers.dimensions;
  }

  lemma ExtendsTransitive(s: State, t: State, u: State)
    requires Extends(s, t) && Extends(t, u)
    ensures Extends(s, u)
  {
  }

  lemma ExtendsReflexive(s: State)
    ensures Extends(s, s)
  {
  }

  lemma ShownConserves(s: State, w: WriteOutcome)
    requires Conserved(s)
    ensures Conserved(Shown(s, w).0) && Extends(s, Shown(s, w).0)
  {
    SendOutputConserves(s, w);
    ExtendsReflexive(s);
    hide SendOutput, Conserved, Extends;
  }

  lemma EndingConserves(s: State)
    requires Conserved(s)
    ensures var t := s.(buffers := s.buffers.(ended := true)); Conserved(t) && Extends(s, t)
  {
    hide RequestsOf, Acceptable;
  }

  lemma ShownAfterEnd(s: State, w: WriteOutcome)
    requires Conserved(s)
    ensures var t := Shown(s.(buffers := s.buffers.(ended := true)), w).0; Conserved(t) && Extends(s, t)
  {
    var t := s.(buffers := s.buffers.(ended := true));
    EndingConserves(s);
    ShownConserves(t, w);
    ExtendsTransitive(s, t, Shown(t, w).0);
  }

  lemma ShownAfterRead(s: State, r: ReadOutcome, w: WriteOutcome)
    requires Conserved(s) && !s.buffers.ended
    ensures var t := Shown(ReceiveOutput(s, r), w).0; Conserved(t) && Extends(s, t)
  {
    var t := ReceiveOutput(s, r);
    ReceiveConserves(s, r);
    hide ReceiveOutput;
    ShownConserves(t, w);
    hide Shown, Conserved;
    ExtendsTransitive(s, t, Shown(t, w).0);
  }

  // The states the last part of a pump can end in.
  lemma PumpedOutputOutcome(s: State, r: ReadOutcome, w: WriteOutcome)
    requires Bounded(s)
    ensures var t := PumpedOutput(s, r, w).0;
            || t == s || t == Shown(s, w).0
            || (!s.buffers.ended && (t == Shown(s.(buffers := s.buffers.(ended := true)), w).0
                                     || t == Shown(ReceiveOutput(s, r), w).0))
  {
    hide Shown, ReceiveOutput, ReadAnswer;
  }

  lemma PumpedOutputConserves(s: State, r: ReadOutcome, w: WriteOutcome)
    requires Conserved(s)
    ensures Conserved(PumpedOutput(s, r, w).0) && Extends(s, PumpedOutput(s, r, w).0)
  {
    ConservedIsBounded(s);
    hide *;
    ExtendsReflexive(s);
    ShownConserves(s, w);
    ShownAfterEnd(s, w);
    if !s.buffers.ended { ShownAfterRead(s, r, w); }
    PumpedOutputOutcome(s, r, w);
  }

  // A pump conserves every byte, however short its reads and writes and wherever it fails.
  lemma PumpConserves(s: State, c: Calls)
    requires Conserved(s)
    ensures Conserved(Pumped(s, c).0) && Extends(s, Pumped(s, c).0)
  {
    hide Conserved, Extends, Bounded;
    ConservedIsBounded(s);
    ExtendsReflexive(s);
    SendInputConserves(s, c.toCommand);
    var s1 := SendInput(s, c.toCommand);
    SendOutputConserves(s1, c.shown);
    var s2 := SendOutput(s1, c.shown);
    ExtendsTransitive(s, s1, s2);
    ConservedIsBounded(s2);
    ReceiveConserves(s2, c.typed);
    var s3 := ReceiveInput(s2, c.typed);
    ExtendsTransitive(s, s2, s3);
    ConservedIsBounded(s3);
    ReceiveConserves(s3, c.requests);
    var s4 := ReceiveDimensions(s3, c.requests);
    ExtendsTransitive(s, s3, s4);
    ConservedIsBounded(s4);
    hide SendInput, SendOutput, ReceiveInput, ReceiveDimensions, Resize, Acceptable, SizeOf, WriteFails, ReadAnswer,
         PumpedOutput;
    if |s4.buffers.dimensions| == DIMENSIONS_SIZE && Acceptable(SizeOf(s4.buffers.dimensions)) {
      ResizeConserves(s4);
      ExtendsTransitive(s, s4, Resize(s4));
      ConservedIsBounded(Resize(s4));
      PumpedOutputConserves(Resize(s4), c.fromCommand, c.shownAfter);
      ExtendsTransitive(s, Resize(s4), PumpedOutput(Resize(s4), c.fromCommand, c.shownAfter).0);
    } else {
      PumpedOutputConserves(s4, c.fromCommand, c.shownAfter);
      ExtendsTransitive(s, s4, PumpedOutput(s4, c.fromCommand, c.shownAfter).0);
    }
  }

  // ---------------------------------------------------------------- when a pump fails

  // What a write leaves, and what a read finds, in a buffer.
  function Left(buffer: seq<Byte>, o: WriteOutcome): seq<Byte> {
    match o
    case Accepts(n) => if n < |buffer| then buffer[n..] else []
    case _ => buffer
  }

  function Found(buffer: seq<Byte>, o: ReadOutcome): seq<Byte> {
    if o.Waiting? then buffer + o.bytes else buffer
  }

  // The viewer has bytes, or none yet.
  predicate StillOpen(o: ReadOutcome) {
    o.ReadAgain? || (o.Waiting? && o.bytes != [])
  }

  function Number(low: Byte, high: Byte): int {
    low as int + 256 * high as int
  }

  predicate RequestInRange(d: seq<Byte>)
    requires |d| >= 4
  {
    20 <= Number(d[0], d[1]) <= 500 && 5 <= Number(d[2], d[3]) <= 300
  }

  lemma LeftAfterSending(s: State, o: WriteOutcome)
    ensures SendInput(s, o).buffers.input == Left(s.buffers.input, o)
    ensures SendOutput(s, o).buffers.output == Left(s.buffers.output, o)
  {
  }

  lemma FoundByReading(buffer: seq<Byte>, limit: nat, o: ReadOutcome)
    requires |buffer| <= limit
    ensures var all := Found(buffer, o);
            buffer + Received(buffer, limit, o) == if |all| <= limit then all else all[..limit]
  {
  }

  // The requests are whole and out of range, or the terminal does not take them.
  predicate ResizeFails(s: State, c: Calls) {
    var d := Found(s.buffers.dimensions, c.requests);
    |d| >= 4 && !(RequestInRange(d) && c.resized)
  }

  lemma PumpedOutputSucceeds(s: State, r: ReadOutcome, w: WriteOutcome)
    requires Bounded(s)
    ensures PumpedOutput(s, r, w).1 <==>
              && (s.buffers.ended || |s.buffers.output| == 65536 || r != ReadError)
              && ((s.buffers.output == [] && (s.buffers.ended || Found([], r) == [])) || w != WriteError)
    ensures var t := PumpedOutput(s, r, w).0;
            && t.streams.resizes == s.streams.resizes
            && (PumpedOutput(s, r, w).1 ==>
                  (t.buffers.ended <==> s.buffers.ended || (|s.buffers.output| < 65536 && EndOfStream(r))))
  {
  }

  // The state that a pump has reached when it looks at the resize requests.
  function BeforeResize(s: State, c: Calls): (t: State)
    requires Bounded(s)
    ensures Bounded(t)
  {
    ReceiveDimensions(ReceiveInput(SendOutput(SendInput(s, c.toCommand), c.shown), c.typed), c.requests)
  }

  lemma BeforeResizeFacts(s: State, c: Calls)
    requires Bounded(s)
    ensures var t, d := BeforeResize(s, c), Found(s.buffers.dimensions, c.requests);
            && t.buffers.output == Left(s.buffers.output, c.shown) && t.buffers.ended == s.buffers.ended
            && t.streams.resizes == s.streams.resizes
            && t.buffers.dimensions == if |d| <= 4 then d else d[..4]
  {
    FoundByReading(s.buffers.dimensions, 4, c.requests);
    LeftAfterSending(SendInput(s, c.toCommand), c.shown);
    hide Received, Found, Left, Written;
  }

  predicate ReadsBegin(s: State, c: Calls) {
    && (s.buffers.input == [] || c.toCommand != WriteError)
    && (s.buffers.output == [] || c.shown != WriteError)
    && (|Left(s.buffers.input, c.toCommand)| == 65536 || StillOpen(c.typed))
    && (|s.buffers.dimensions| == 4 || StillOpen(c.requests))
  }

  lemma PumpSteps(s: State, c: Calls)
    requires Bounded(s)
    ensures var t := BeforeResize(s, c);
            var whole := |t.buffers.dimensions| == 4;
            var u := if whole then Resize(t) else t;
            && Bounded(u)
            && (Pumped(s, c).1 <==>
                  && ReadsBegin(s, c)
                  && (whole ==> Acceptable(SizeOf(t.buffers.dimensions)) && c.resized)
                  && PumpedOutput(u, c.fromCommand, c.shownAfter).1)
            && (Pumped(s, c).1 ==> Pumped(s, c).0 == PumpedOutput(u, c.fromCommand, c.shownAfter).0)
  {
    LeftAfterSending(s, c.toCommand);
    hide PumpedOutput, Left, Received, Acceptable, SizeOf, Written;
  }

  lemma ResizeFacts(s: State, c: Calls)
    requires Bounded(s)
    ensures var t, d := BeforeResize(s, c), Found(s.buffers.dimensions, c.requests);
            && (|t.buffers.dimensions| == 4 <==> |d| >= 4)
            && (|d| >= 4 ==>
                  && (ResizeFails(s, c) <==> !(Acceptable(SizeOf(t.buffers.dimensions)) && c.resized))
                  && Resize(t).buffers == t.buffers.(dimensions := [])
                  && Resize(t).streams.resizes == t.streams.resizes + [Size(Number(d[0], d[1]), Number(d[2], d[3]))])
            && (|d| < 4 ==> !ResizeFails(s, c))
  {
    BeforeResizeFacts(s, c);
    hide BeforeResize, Found, Left, Bounded;
    var d := Found(s.buffers.dimensions, c.requests);
    if |d| >= 4 {
      FirstFour(d);
      hide SizeOf, Number, Acceptable, RequestInRange;
    }
  }

  lemma FirstFour(d: seq<Byte>)
    requires |d| >= 4
    ensures SizeOf(d[..4]) == Size(Number(d[0], d[1]), Number(d[2], d[3]))
    ensures Acceptable(SizeOf(d[..4])) <==> RequestInRange(d)
    ensures |d| <= 4 ==> d == d[..4]
  {
  }

  // A pump fails exactly if a byte cannot be written, the viewer is gone, a whole request is
  // out of range or not taken, or the command's output breaks. It makes one resize for
  // every whole request.
  lemma PumpSucceedsExactly(s: State, c: Calls)
    requires Bounded(s)
    ensures var output := Left(s.buffers.output, c.shown);
            Pumped(s, c).1 <==>
              && ReadsBegin(s, c) && !ResizeFails(s, c)
              && (s.buffers.ended || |output| == 65536 || c.fromCommand != ReadError)
              && ((output == [] && (s.buffers.ended || Found([], c.fromCommand) == [])) || c.shownAfter != WriteError)
    ensures Pumped(s, c).1 ==>
              var d := Found(s.buffers.dimensions, c.requests);
              Pumped(s, c).0.streams.resizes
              == s.streams.resizes + if |d| >= 4 then [Size(Number(d[0], d[1]), Number(d[2], d[3]))] else []
    ensures Pumped(s, c).1 ==>
              (Pumped(s, c).0.buffers.ended <==>
                 s.buffers.ended
                 || (|Left(s.buffers.output, c.shown)| < 65536 && EndOfStream(c.fromCommand)))
  {
    hide Pumped, PumpedOutput, BeforeResize, Found, Left, ReadsBegin, ResizeFails, Resize, Bounded, Acceptable, SizeOf;
    var s4 := BeforeResize(s, c);
    var s5 := if |s4.buffers.dimensions| == 4 then Resize(s4) else s4;
    BeforeResizeFacts(s, c);
    PumpSteps(s, c);
    ResizeFacts(s, c);
    PumpedOutputSucceeds(s5, c.fromCommand, c.shownAfter);
  }

  // A round of draining fails exactly if the output breaks or cannot be written, and it is
  // the last exactly if nothing is left of an output that has ended.
  lemma RoundExactly(s: State, r: ReadOutcome, w: WriteOutcome)
    requires Bounded(s)
    ensures var reading := !s.buffers.ended && |s.buffers.output| < 65536;
            var shows := s.buffers.output + if reading then Received(s.buffers.output, 65536, r) else [];
            var round := DrainRound(s, r, w).1;
            && (round == Failed <==> (reading && r == ReadError) || (shows != [] && w == WriteError))
            && (round == Drained <==>
                  round != Failed && Left(shows, w) == [] && (s.buffers.ended || (reading && EndOfStream(r))))
  {
    var e := s.(buffers := s.buffers.(ended := true));
    LeftAfterSending(s, w);
    LeftAfterSending(e, w);
    LeftAfterSending(ReceiveOutput(s, r), w);
    NothingMore(s.buffers.output, r);
    hide SendOutput, Left, Received;
  }

  // The states of a drain, round by round: every round but the last continues.
  ghost predicate DrainStates(states: seq<State>, rounds: seq<(ReadOutcome, WriteOutcome)>, last: Round) {
    && 0 < |states| <= |rounds| + 1
    && (forall i :: 0 <= i < |states| ==> Bounded(states[i]))
    && (|states| == 1 ==> last == Continues)
    && forall i :: 0 < i < |states| ==>
         DrainRound(states[i - 1], rounds[i - 1].0, rounds[i - 1].1)
         == (states[i], if i == |states| - 1 then last else Continues)
  }

  // A drain goes on until a round ends it or its rounds are over, and answers 0 exactly if
  // the last one found everything shown.
  lemma {:induction false} DrainStops(s: State, rounds: seq<(ReadOutcome, WriteOutcome)>) returns (states: seq<State>,
                                                                                                 last: Round)
    requires Bounded(s)
    ensures DrainStates(states, rounds, last)
    ensures states[0] == s && DrainedAll(s, rounds) == (states[|states| - 1], last == Drained)
    ensures |states| == |rounds| + 1 || last != Continues
    decreases |rounds|
  {
    hide DrainRound;
    if |rounds| == 0 {
      states, last := [s], Continues;
    } else {
      var (t, round) := DrainRound(s, rounds[0].0, rounds[0].1);
      if round == Continues {
        var later, end := DrainStops(t, rounds[1..]);
        states, last := [s] + later, end;
        forall i | 0 < i < |states|
          ensures DrainRound(states[i - 1], rounds[i - 1].0, rounds[i - 1].1)
                  == (states[i], if i == |states| - 1 then last else Continues)
        {
          if i > 1 { assert states[i - 1] == later[i - 2] && rounds[i - 1] == rounds[1..][i - 2]; }
        }
      } else {
        states, last := [s, t], round;
      }
    }
  }

  lemma NothingMore(buffer: seq<Byte>, r: ReadOutcome)
    ensures buffer + [] == buffer
    ensures |buffer| <= 65536 && !r.Waiting? ==> Received(buffer, 65536, r) == []
    ensures |buffer| <= 65536 && r == Waiting([]) ==> Received(buffer, 65536, r) == []
  {
  }

  // A pump whose calls all make full progress delivers everything that was typed before it
  // and shows everything the command has written, and takes the resize it was sent.
  lemma PumpDelivers(s: State, c: Calls)
    requires Conserved(s) && Pumped(s, c).1
    requires c.toCommand.Accepts? && c.toCommand.n >= BUFFER_SIZE && c.shownAfter.Accepts?
             && c.shownAfter.n >= BUFFER_SIZE
    ensures var t := Pumped(s, c).0;
            && t.streams.toCommand == s.streams.typed
            && t.streams.shown == t.streams.fromCommand
            && |t.buffers.dimensions| < DIMENSIONS_SIZE
            && (t.buffers.ended && !s.buffers.ended ==> EndOfStream(c.fromCommand))
            && (c.typed.Waiting? && |c.typed.bytes| <= BUFFER_SIZE
                ==> t.streams.typed == s.streams.typed + c.typed.bytes)
  {
    var s1 := SendInput(s, c.toCommand);
    assert s1.buffers.input == [] && s1.streams.toCommand == s.streams.typed;
    var s2 := SendOutput(s1, c.shown);
    var s3 := ReceiveInput(s2, c.typed);
    var s4 := ReceiveDimensions(s3, c.requests);
    var s5 := if |s4.buffers.dimensions| == DIMENSIONS_SIZE then Resize(s4) else s4;
    PumpConserves(s, c);
    AllShown(s5, c.fromCommand, c.shownAfter);
    assert c.typed.Waiting? && |c.typed.bytes| <= BUFFER_SIZE ==> Received([], BUFFER_SIZE, c.typed) == c.typed.bytes;
    hide Conserved, RequestsOf, PumpedOutput, Received, SizeOf, Acceptable;
  }

  lemma AllShown(s: State, r: ReadOutcome, w: WriteOutcome)
    requires Bounded(s) && w.Accepts? && w.n >= BUFFER_SIZE
    ensures var t := PumpedOutput(s, r, w).0;
            PumpedOutput(s, r, w).1 ==>
              && t.buffers.output == [] && t.buffers.dimensions == s.buffers.dimensions
              && t.streams.toCommand == s.streams.toCommand && t.streams.typed == s.streams.typed
              && (t.buffers.ended && !s.buffers.ended ==> EndOfStream(r))
  {
  }

  lemma SentAfterEnd(s: State, w: WriteOutcome)
    requires Conserved(s)
    ensures var t := s.(buffers := s.buffers.(ended := true));
            Conserved(t) && Extends(s, t) && Conserved(SendOutput(t, w)) && Extends(s, SendOutput(t, w))
  {
    var t := s.(buffers := s.buffers.(ended := true));
    EndingConserves(s);
    SendOutputConserves(t, w);
    ExtendsTransitive(s, t, SendOutput(t, w));
  }

  lemma SentAfterRead(s: State, r: ReadOutcome, w: WriteOutcome)
    requires Conserved(s) && !s.buffers.ended
    ensures var t := ReceiveOutput(s, r);
            Conserved(t) && Extends(s, t) && Conserved(SendOutput(t, w)) && Extends(s, SendOutput(t, w))
  {
    var t := ReceiveOutput(s, r);
    ReceiveConserves(s, r);
    hide ReceiveOutput;
    SendOutputConserves(t, w);
    hide SendOutput, Conserved;
    ExtendsTransitive(s, t, SendOutput(t, w));
  }

  // The states a round can end in.
  lemma RoundOutcome(s: State, r: ReadOutcome, w: WriteOutcome)
    requires Bounded(s)
    ensures var t, e := DrainRound(s, r, w).0, s.(buffers := s.buffers.(ended := true));
            || t == s || t == SendOutput(s, w) || t == e || t == SendOutput(e, w)
            || (!s.buffers.ended && (t == ReceiveOutput(s, r) || t == SendOutput(ReceiveOutput(s, r), w)))
  {
    hide SendOutput, ReceiveOutput, WriteFails, ReadAnswer;
  }

  lemma RoundConserves(s: State, r: ReadOutcome, w: WriteOutcome)
    requires Conserved(s)
    ensures Conserved(DrainRound(s, r, w).0) && Extends(s, DrainRound(s, r, w).0)
  {
    ConservedIsBounded(s);
    hide *;
    ExtendsReflexive(s);
    SendOutputConserves(s, w);
    SentAfterEnd(s, w);
    if !s.buffers.ended { SentAfterRead(s, r, w); }
    RoundOutcome(s, r, w);
  }

  // What tells the reader that the command's output has ended.
  predicate EndOfStream(r: ReadOutcome) {
    r.HungUp? || r == Waiting([])
  }

  lemma RoundEnds(s: State, r: ReadOutcome, w: WriteOutcome)
    requires Bounded(s)
    ensures var (t, round) := DrainRound(s, r, w);
            && (round == Drained ==> t.buffers.ended && t.buffers.output == [])
            && (t.buffers.ended && !s.buffers.ended ==> EndOfStream(r))
  {
    var e := s.(buffers := s.buffers.(ended := true));
    CallsKeepEnded(s, r, w);
    CallsKeepEnded(e, r, w);
    CallsKeepEnded(ReceiveOutput(s, r), r, w);
    hide SendOutput, ReceiveOutput, WriteFails;
  }

  lemma CallsKeepEnded(s: State, r: ReadOutcome, w: WriteOutcome)
    requires Bounded(s)
    ensures SendOutput(s, w).buffers.ended == ReceiveOutput(s, r).buffers.ended == s.buffers.ended
    ensures Bounded(ReceiveOutput(s, r))
  {
  }

  // A drain conserves every byte; when it answers 0, the command's output has ended and
  // everything it ever wrote was shown.
  lemma {:induction false} DrainConserves(s: State, rounds: seq<(ReadOutcome, WriteOutcome)>)
    requires Conserved(s)
    ensures var (t, drained) := DrainedAll(s, rounds);
            && Conserved(t) && Extends(s, t)
            && (drained ==> t.buffers.ended && t.streams.shown == t.streams.fromCommand)
            && (drained && !s.buffers.ended ==> exists i :: 0 <= i < |rounds| && EndOfStream(rounds[i].0))
    decreases |rounds|
  {
    hide RequestsOf;
    if |rounds| > 0 {
      RoundConserves(s, rounds[0].0, rounds[0].1);
      var (t, round) := DrainRound(s, rounds[0].0, rounds[0].1);
      RoundEnds(s, rounds[0].0, rounds[0].1);
      hide DrainRound, EndOfStream;
      DrainConserves(t, rounds[1..]);
      assert forall i :: 0 <= i < |rounds| - 1 ==> rounds[1..][i] == rounds[i + 1];
    }
  }

  datatype Step = Pump(calls: Calls) | Drain(rounds: seq<(ReadOutcome, WriteOutcome)>)

  function After(s: State, step: Step): State
    requires Bounded(s)
  {
    match step
    case Pump(calls) => Pumped(s, calls).0
    case Drain(rounds) => DrainedAll(s, rounds).0
  }

  const FRESH := State(Buffers([], [], [], false), Streams([], [], [], [], [], []))

  ghost predicate IsRun(states: seq<State>, steps: seq<Step>) {
    && |states| == |steps| + 1 && states[0] == FRESH
    && forall i :: 0 <= i < |steps| ==> Bounded(states[i]) && states[i + 1] == After(states[i], steps[i])
  }

  // In every state of every run of pumps and drains all bytes are conserved.
  lemma {:induction false} RunConserves(states: seq<State>, steps: seq<Step>, i: nat)
    requires IsRun(states, steps) && i < |states|
    ensures Conserved(states[i])
  {
    hide After;
    if i == 0 {
      assert Conserved(FRESH);
    } else {
      RunConserves(states, steps, i - 1);
      StepConserves(states[i - 1], steps[i - 1]);
      assert states[i - 1 + 1] == After(states[i - 1], steps[i - 1]);
    }
  }

  lemma StepConserves(s: State, step: Step)
    requires Conserved(s)
    ensures Conserved(After(s, step)) && Extends(s, After(s, step))
  {
    hide Pumped, DrainedAll, Conserved, Bounded;
    assert Bounded(s) by { ConservedIsBounded(s); }
    match step
    case Pump(calls) => PumpConserves(s, calls);
    case Drain(rounds) => DrainConserves(s, rounds);
  }

  lemma ConservedIsBounded(s: State)
    requires Conserved(s)
    ensures Bounded(s)
  {
  }

  // ---------------------------------------------------------------- in place

  // Let n bytes leave the front of the used part of a buffer (`terminal_write`).
  method WriteFrom(bytes: array<Byte>, size: nat, o: WriteOutcome) returns (ok: bool, rest: nat)
    requires size <= bytes.Length
    modifies bytes
    ensures ok <==> !WriteFails(old(bytes[..size]), o)
    ensures rest == size - Written(old(bytes[..size]), o)
    ensures bytes[..rest] == old(bytes[..size])[Written(old(bytes[..size]), o)..]
  {
    if size == 0 {
      return true, 0;
    }
    match o
    case WriteAgain => return true, size;
    case WriteError => return false, size;
    case Accepts(n) =>
      var written := Min(n, size);
      // memmove
      forall i | 0 <= i < size - written {
        bytes[i] := bytes[i + written];
      }
      return true, size - written;
  }

  // Let the waiting bytes enter the free part of a buffer (`terminal_read`).
  method ReadInto(bytes: array<Byte>, size: nat, o: ReadOutcome) returns (answer: Answer, filled: nat)
    requires size <= bytes.Length
    modifies bytes
    ensures answer == ReadAnswer(old(bytes[..size]), bytes.Length, o)
    ensures filled == size + |Received(old(bytes[..size]), bytes.Length, o)|
    ensures bytes[..filled] == old(bytes[..size]) + Received(old(bytes[..size]), bytes.Length, o)
  {
    if size == bytes.Length {
      return Fine, size;
    }
    match o
    case ReadAgain => return Fine, size;
    case HungUp => return AtEnd, size;
    case ReadError => return Broken, size;
    case Waiting(waiting) =>
      var count := Min(|waiting|, bytes.Length - size);
      if count == 0 {
        return AtEnd, size;
      }
      forall i | 0 <= i < count {
        bytes[size + i] := waiting[i];
      }
      return Fine, size + count;
  }

  // ---------------------------------------------------------------- calls that fail move nothing

  lemma NoInputSent(s: State, o: WriteOutcome)
    ensures WriteFails(s.buffers.input, o) ==> SendInput(s, o) == s
  {
    assert s.streams.toCommand + s.buffers.input[..0] == s.streams.toCommand;
  }

  lemma NoOutputSent(s: State, o: WriteOutcome)
    ensures WriteFails(s.buffers.output, o) ==> SendOutput(s, o) == s
  {
    assert s.streams.shown + s.buffers.output[..0] == s.streams.shown;
  }

  lemma NothingReceived(buffer: seq<Byte>, limit: nat, o: ReadOutcome)
    requires |buffer| <= limit
    ensures ReadAnswer(buffer, limit, o) != Fine ==> Received(buffer, limit, o) == []
  {
  }

  lemma NoInputReceived(s: State, o: ReadOutcome)
    requires Bounded(s)
    ensures ReadAnswer(s.buffers.input, BUFFER_SIZE, o) != Fine ==> ReceiveInput(s, o) == s
  {
    NothingReceived(s.buffers.input, BUFFER_SIZE, o);
    hide Received, ReadAnswer;
  }

  lemma NoDimensionsReceived(s: State, o: ReadOutcome)
    requires Bounded(s)
    ensures ReadAnswer(s.buffers.dimensions, DIMENSIONS_SIZE, o) != Fine ==> ReceiveDimensions(s, o) == s
  {
    NothingReceived(s.buffers.dimensions, DIMENSIONS_SIZE, o);
    hide Received, ReadAnswer;
  }

  lemma NoOutputReceived(s: State, o: ReadOutcome)
    requires Bounded(s)
    ensures ReadAnswer(s.buffers.output, BUFFER_SIZE, o) != Fine ==> ReceiveOutput(s, o) == s
  {
    NothingReceived(s.buffers.output, BUFFER_SIZE, o);
    hide Received, ReadAnswer;
  }

  // `struct terminal_io`
  class Terminal {
    const input: array<Byte>
    const output: array<Byte>
    const dimensions: array<Byte>
    var inputSize: nat
    var outputSize: nat
    var dimensionsSize: nat
    var ended: bool
    ghost var streams: Streams

    ghost predicate Valid()
      reads this
    {
      && input != output && input != dimensions && output != dimensions
      && input.Length == output.Length == BUFFER_SIZE && dimensions.Length == DIMENSIONS_SIZE
      && inputSize <= BUFFER_SIZE && outputSize <= BUFFER_SIZE && dimensionsSize <= DIMENSIONS_SIZE
    }

    ghost function Value(): (s: State)
      reads this, input, output, dimensions
      requires Valid()
      ensures Bounded(s)
    {
      State(Buffers(input[..inputSize], output[..outputSize], dimensions[..dimensionsSize], ended), streams)
    }

    constructor ()
      ensures Valid() && fresh(input) && fresh(output) && fresh(dimensions) && Value() == FRESH
      ensures Value().buffers == Buffers([], [], [], false)
    {
      input := new Byte[BUFFER_SIZE](_ => 0);
      output := new Byte[BUFFER_SIZE](_ => 0);
      dimensions := new Byte[DIMENSIONS_SIZE](_ => 0);
      inputSize, outputSize, dimensionsSize, ended := 0, 0, 0, false;
      streams := Streams([], [], [], [], [], []);
    }

    method WriteInput(o: WriteOutcome) returns (ok: bool)
      requires Valid()
      modifies this, input
      ensures Valid() && ok == !WriteFails(old(Value()).buffers.input, o) && Value() == SendInput(old(Value()), o)
    {
      ghost var before := Value();
      ok, inputSize := WriteFrom(input, inputSize, o);
      streams := streams.(toCommand := streams.toCommand + before.buffers.input[..Written(before.buffers.input, o)]);
    }

    method WriteOutput(o: WriteOutcome) returns (ok: bool)
      requires Valid()
      modifies this, output
      ensures Valid() && ok == !WriteFails(old(Value()).buffers.output, o) && Value() == SendOutput(old(Value()), o)
    {
      ghost var before := Value();
      ok, outputSize := WriteFrom(output, outputSize, o);
      streams := streams.(shown := streams.shown + before.buffers.output[..Written(before.buffers.output, o)]);
    }

    method ReadInput(o: ReadOutcome) returns (answer: Answer)
      requires Valid()
      modifies this, input
      ensures Valid() && answer == ReadAnswer(old(Value()).buffers.input, BUFFER_SIZE, o)
              && Value() == ReceiveInput(old(Value()), o)
    {
      ghost var before := Value();
      answer, inputSize := ReadInto(input, inputSize, o);
      streams := streams.(typed := streams.typed + Received(before.buffers.input, BUFFER_SIZE, o));
    }

    method ReadOutput(o: ReadOutcome) returns (answer: Answer)
      requires Valid()
      modifies this, output
      ensures Valid() && answer == ReadAnswer(old(Value()).buffers.output, BUFFER_SIZE, o)
              && Value() == ReceiveOutput(old(Value()), o)
    {
      ghost var before := Value();
      answer, outputSize := ReadInto(output, outputSize, o);
      streams := streams.(fromCommand := streams.fromCommand + Received(before.buffers.output, BUFFER_SIZE, o));
    }

    method ReadDimensions(o: ReadOutcome) returns (answer: Answer)
      requires Valid()
      modifies this, dimensions
      ensures Valid() && answer == ReadAnswer(old(Value()).buffers.dimensions, DIMENSIONS_SIZE, o)
      ensures Value() == ReceiveDimensions(old(Value()), o)
    {
      ghost var before := Value();
      answer, dimensionsSize := ReadInto(dimensions, dimensionsSize, o);
      streams := streams.(requests := streams.requests + Received(before.buffers.dimensions, DIMENSIONS_SIZE, o));
    }

    // Set the size that four buffered bytes ask for; the ioctl may fail.
    method ApplyDimensions(resized: bool) returns (ok: bool)
      requires Valid()
      modifies this
      ensures Valid()
      ensures (Value(), ok) == (
                var s := old(Value());
                if |s.buffers.dimensions| != DIMENSIONS_SIZE then (s, true)
                else if !Acceptable(SizeOf(s.buffers.dimensions)) || !resized then (s, false) else (Resize(s), true))
    {
      if dimensionsSize == DIMENSIONS_SIZE {
        var columns := dimensions[0] as int + 256 * dimensions[1] as int;
        var rows := dimensions[2] as int + 256 * dimensions[3] as int;
        if columns < 20 || columns > 500 || rows < 5 || rows > 300 || !resized {
          return false;
        }
        dimensionsSize := 0;
        streams := streams.(resizes := streams.resizes + [Size(columns, rows)]);
      }
      return true;
    }

    // Take more output unless it has ended, and show what there is.
    method PumpOutput(r: ReadOutcome, w: WriteOutcome) returns (ok: bool)
      requires Valid()
      modifies this, output
      ensures Valid() && (Value(), ok) == PumpedOutput(old(Value()), r, w)
    {
      hide SendOutput, ReceiveOutput, WriteFails, ReadAnswer;
      if !ended {
        NoOutputReceived(Value(), r);
        var answer := ReadOutput(r);
        if answer == Broken {
          return false;
        }
        if answer == AtEnd {
          ended := true;
        }
      }
      NoOutputSent(Value(), w);
      ok := WriteOutput(w);
    }

    method Pump(c: Calls) returns (ok: bool)
      requires Valid()
      modifies this, input, output, dimensions
      ensures Valid() && (Value(), ok) == Pumped(old(Value()), c)
    {
      hide SendInput, SendOutput, ReceiveInput, ReceiveOutput, ReceiveDimensions, WriteFails, ReadAnswer;
      hide Acceptable, Resize, SizeOf, PumpedOutput;
      NoInputSent(Value(), c.toCommand);
      ok := WriteInput(c.toCommand);
      if !ok {
        return false;
      }
      NoOutputSent(Value(), c.shown);
      ok := WriteOutput(c.shown);
      if !ok {
        return false;
      }
      NoInputReceived(Value(), c.typed);
      var answer := ReadInput(c.typed);
      if answer != Fine {
        return false;
      }
      NoDimensionsReceived(Value(), c.requests);
      answer := ReadDimensions(c.requests);
      if answer != Fine {
        return false;
      }
      ok := ApplyDimensions(c.resized);
      if !ok {
        return false;
      }
      ok := PumpOutput(c.fromCommand, c.shownAfter);
    }

    // `terminal_drain`: rounds until nothing is left, a call fails or the deadline passes
    method Drain(rounds: seq<(ReadOutcome, WriteOutcome)>) returns (drained: bool)
      requires Valid() && |rounds| > 0
      modifies this, output
      ensures Valid() && (Value(), drained) == DrainedAll(old(Value()), rounds)
    {
      hide SendOutput, ReceiveOutput, WriteFails;
      assert rounds[0..] == rounds;
      for n := 0 to |rounds|
        invariant Valid()
        invariant DrainedAll(old(Value()), rounds) == DrainedAll(Value(), rounds[n..])
      {
        assert rounds[n..][1..] == rounds[n + 1..];
        ghost var before := Value();
        var (r, w) := rounds[n];
        if !ended && outputSize < BUFFER_SIZE {
          NoOutputReceived(before, r);
          var answer := ReadOutput(r);
          if answer == Broken {
            return false;
          }
          if answer == AtEnd {
            ended := true;
          }
        }
        NoOutputSent(Value(), w);
        var ok := WriteOutput(w);
        if !ok {
          return false;
        }
        assert Value() == DrainRound(before, r, w).0;
        if ended && outputSize == 0 {
          return true;
        }
      }
      return false;
    }
  }
}
