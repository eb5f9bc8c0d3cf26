/**
 The whole gateway as a state machine: bytes from clients, packets from the controller and poll timeouts, over the
 command state, the unfinished line shared by all clients, and the output queue.
*/
module System {
  import opened Common
  import opened Text
  import opened Frames
  import opened DeviceState
  import opened Commands
  import opened CommandProperties
  import Q = OutputQueue
  import Sensors
  import Codes
  import Dup = DupFilter

  // ----- Splitting a byte stream into lines -----

  /** A byte, the client it came from, and the clock should it complete a line. */
  datatype Input1 = Input1(fd: int, c: char, clk: Clock)

  /** A complete line, handed to the parser for the client whose byte ended it. */
  datatype Line = Line(fd: int, text: string, clk: Clock)

  predicate EndsLine(c: char) { c == '\n' || c == '\r' || c == '\0' }

  /** The lines a stream completes, after an unfinished line, and the unfinished line it leaves. */
  function Split(pending: string, s: seq<Input1>): (seq<Line>, string)
    decreases |s|
  {
    if s == [] then ([], pending)
    else if EndsLine(s[0].c) then
      var (lines, rest) := Split("", s[1..]);
      ((if pending == "" then [] else [Line(s[0].fd, pending, s[0].clk)]) + lines, rest)
    else Split(pending + [s[0].c], s[1..])
  }

  lemma {:induction false} SplitAppend(pending: string, a: seq<Input1>, b: seq<Input1>)
    ensures var (l1, p1) := Split(pending, a);
      var (l2, p2) := Split(p1, b);
      Split(pending, a + b) == (l1 + l2, p2)
    decreases |a|
  {
    if a == [] {
      assert a + b == b;
      assert [] + Split(pending, b).0 == Split(pending, b).0;
    } else {
      assert (a + b)[1..] == a[1..] + b;
      if EndsLine(a[0].c) {
        SplitAppend("", a[1..], b);
        var first := if pending == "" then [] else [Line(a[0].fd, pending, a[0].clk)];
        var (l1, p1) := Split("", a[1..]);
        assert first + (l1 + Split(p1, b).0) == (first + l1) + Split(p1, b).0;
      } else {
        SplitAppend(pending + [a[0].c], a[1..], b);
      }
    }
  }

  function Content(s: seq<Input1>): string
    decreases |s|
  {
    if s == [] then "" else (if EndsLine(s[0].c) then "" else [s[0].c]) + Content(s[1..])
  }

  function Texts(lines: seq<Line>): string
    decreases |lines|
  {
    if lines == [] then "" else lines[0].text + Texts(lines[1..])
  }

  lemma {:induction false} TextsAppend(a: seq<Line>, b: seq<Line>)
    ensures Texts(a + b) == Texts(a) + Texts(b)
    decreases |a|
  {
    if a == [] {
      assert a + b == b;
    } else {
      assert (a + b)[1..] == a[1..] + b;
      TextsAppend(a[1..], b);
    }
  }

  predicate NoEnd(t: string) { forall i :: 0 <= i < |t| ==> !EndsLine(t[i]) }

  lemma TextOfFirst(pending: string, fd: int, clk: Clock)
    ensures Texts(if pending == "" then [] else [Line(fd, pending, clk)]) == pending
  {
    if pending != "" {
      assert [Line(fd, pending, clk)][1..] == [];
      assert pending + "" == pending;
    }
  }

  /** No byte is lost, added or moved: the lines and what is left over are the stream without its terminators. */
  lemma {:induction false} SplitConserves(pending: string, s: seq<Input1>)
    ensures Texts(Split(pending, s).0) + Split(pending, s).1 == pending + Content(s)
    decreases |s|
  {
    if s == [] {
      assert "" + pending == pending + "";
    } else if EndsLine(s[0].c) {
      SplitConserves("", s[1..]);
      TextOfFirst(pending, s[0].fd, s[0].clk);
      TextsAppend(if pending == "" then [] else [Line(s[0].fd, pending, s[0].clk)], Split("", s[1..]).0);
      assert "" + Content(s[1..]) == Content(s);
    } else {
      SplitConserves(pending + [s[0].c], s[1..]);
      assert pending + [s[0].c] + Content(s[1..]) == pending + ([s[0].c] + Content(s[1..]));
    }
  }

  /** No line is empty, and neither a line nor what is left over holds a terminator. */
  lemma {:induction false} SplitCuts(pending: string, s: seq<Input1>)
    requires NoEnd(pending)
    ensures forall i :: 0 <= i < |Split(pending, s).0| ==>
      Split(pending, s).0[i].text != "" && NoEnd(Split(pending, s).0[i].text)
    ensures NoEnd(Split(pending, s).1)
    decreases |s|
  {
    if s != [] {
      SplitCuts(if EndsLine(s[0].c) then "" else pending + [s[0].c], s[1..]);
    }
  }

  /** Byte i of the stream completes line k: before it there are k lines, and the unfinished line becomes line k, for
      the client, and with the clock, of that byte. */
  ghost predicate EndedBy(pending: string, s: seq<Input1>, k: nat, i: nat)
    requires k < |Split(pending, s).0| && i < |s|
  {
    var (before, text) := Split(pending, s[..i]);
    && EndsLine(s[i].c)
    && before == Split(pending, s).0[..k]
    && Split(pending, s).0[k] == Line(s[i].fd, text, s[i].clk)
  }

  /** Each line is dispatched for the client whose byte ended it. */
  lemma {:induction false} SplitTags(pending: string, s: seq<Input1>, k: nat)
    requires k < |Split(pending, s).0|
    ensures exists i :: 0 <= i < |s| && EndedBy(pending, s, k, i)
    decreases |s|
  {
    var n := |s| - 1;
    var init := s[..n];
    assert s == init + [s[n]];
    SplitAppend(pending, init, [s[n]]);
    LastByte(Split(pending, init).1, s[n]);
    if k < |Split(pending, init).0| {
      SplitTags(pending, init, k);
      var i :| 0 <= i < n && EndedBy(pending, init, k, i);
      assert init[..i] == s[..i];
      assert EndedBy(pending, s, k, i);
    } else {
      assert EndedBy(pending, s, k, n);
    }
  }

  lemma LastByte(pending: string, b: Input1)
    ensures Split(pending, [b]) ==
      if !EndsLine(b.c) then ([], pending + [b.c])
      else (if pending == "" then [] else [Line(b.fd, pending, b.clk)], "")
  {
    var none: seq<Input1> := [];
    assert [b][1..] == none;
    assert Split("", none) == ([], "") && Split(pending + [b.c], none) == ([], pending + [b.c]);
    var line := if pending == "" then [] else [Line(b.fd, pending, b.clk)];
    assert line + [] == line;
  }

  // ----- One input -----

  /** The replies are those sent since start-up, each with the client it was sent to. */
  datatype Sys = Sys(st: St, pending: string, queue: Q.Queue, replies: seq<(int, Reply)>)

  datatype Input =
    | Bytes(bytes: seq<Input1>)
    | Packet(packet: Frame, after: Frame, clk: Clock)
    | PollTimeout
  {
    /** A packet has at most eight bytes, and its buffer is not the end of memory. */
    predicate Valid() { Packet? ==> |packet| <= 8 && |after| >= 2 }
  }

  /** The decoder's buffer for a packet: a CM19A packet gets 0x5D in front. */
  function DecodeBuffer(cm19a: bool, packet: Frame, after: Frame): Frame { (if cm19a then [0x5D] else []) + packet + after }

  function DecodeLength(cm19a: bool, packet: Frame): nat { |packet| + if cm19a then 1 else 0 }

  /** The dispatch on the leading byte. */
  function DecodeAt(cm19a: bool, st: St, buf: Frame, len: nat, clk: Clock): (e: Effect)
    requires |st.dups| == Dup.SLOTS && 4 <= len && len + 2 <= |buf|
    ensures |e.st.dups| == Dup.SLOTS
  {
    if buf[0] == 0x5A then Nothing(Hear(st, ReadPl(buf, len)))
    else if buf[0] == 0x5D then HandleRf(cm19a, st, buf, len, clk)
    else Nothing(st)
  }

  /** cm15a_decode. */
  function Decode(cm19a: bool, st: St, packet: Frame, after: Frame, clk: Clock): (e: Effect)
    requires |st.dups| == Dup.SLOTS && |after| >= 2
    ensures |e.st.dups| == Dup.SLOTS
  {
    if |packet| < 4 then Nothing(st)
    else DecodeAt(cm19a, st, DecodeBuffer(cm19a, packet, after), DecodeLength(cm19a, packet), clk)
  }

  /** A reply as sent to a client; most commands have none. */
  function Sent(fd: int, reply: Reply): seq<(int, Reply)> { if reply == NoReply then [] else [(fd, reply)] }

  /** What a line is answered in a state. */
  function ReplyTo(st: St, text: string): Reply
    requires ValidHistory(st.history)
  {
    Answer(st, LineCommand(text), LineTokens(text))
  }

  function DoLine(cm19a: bool, s: Sys, line: Line): (s': Sys)
    requires s.st.Valid()
    ensures s'.st.Valid()
  {
    ProcessKeepsValid(cm19a, s.st, line.text, line.clk);
    var e := Process(cm19a, s.st, line.text, line.clk);
    s.(st := e.st, queue := Q.SubmitAll(s.queue, e.writes), replies := s.replies + Sent(line.fd, ReplyTo(s.st, line.text)))
  }

  function DoLines(cm19a: bool, s: Sys, lines: seq<Line>): (s': Sys)
    requires s.st.Valid()
    ensures s'.st.Valid() && s'.pending == s.pending
    decreases |lines|
  {
    if lines == [] then s else DoLines(cm19a, DoLine(cm19a, s, lines[0]), lines[1..])
  }

  function Step(cm19a: bool, s: Sys, input: Input): (s': Sys)
    requires s.st.Valid() && input.Valid()
    ensures s'.st.Valid()
  {
    match input
    case Bytes(bytes) =>
      var (lines, rest) := Split(s.pending, bytes);
      DoLines(cm19a, s, lines).(pending := rest)
    case Packet(packet, after, clk) =>
      var released := if |packet| == 1 then Q.SendNext(s.queue) else s.queue;
      DecodeKeepsValid(cm19a, s.st, packet, after, clk);
      var e := Decode(cm19a, s.st, packet, after, clk);
      s.(st := e.st, queue := Q.SubmitAll(released, e.writes))
    case PollTimeout => s.(queue := Q.SendNext(s.queue))
  }

  // ----- Runs -----

  const INITIAL: St := St([], [], Dup.Empty(), 0xFFFF, 0)

  function Start(cm19a: bool): Sys { Sys(INITIAL, "", Q.StartUp(cm19a), []) }

  ghost predicate ValidInputs(inputs: seq<Input>) { forall i :: 0 <= i < |inputs| ==> inputs[i].Valid() }

  function After(cm19a: bool, inputs: seq<Input>): (s: Sys)
    requires ValidInputs(inputs)
    ensures s.st.Valid()
    decreases |inputs|
  {
    if inputs == [] then Start(cm19a)
    else Step(cm19a, After(cm19a, inputs[..|inputs| - 1]), inputs[|inputs| - 1])
  }

  // ----- Chunking does not matter -----

  lemma {:induction false} DoLinesAppend(cm19a: bool, s: Sys, a: seq<Line>, b: seq<Line>)
    requires s.st.Valid()
    ensures DoLines(cm19a, s, a + b) == DoLines(cm19a, DoLines(cm19a, s, a), b)
    decreases |a|
  {
    if a == [] {
      assert a + b == b;
    } else {
      assert (a + b)[1..] == a[1..] + b;
      DoLinesAppend(cm19a, DoLine(cm19a, s, a[0]), a[1..], b);
    }
  }

  lemma {:induction false} DoLinesIgnorePending(cm19a: bool, s: Sys, lines: seq<Line>, p: string)
    requires s.st.Valid()
    ensures DoLines(cm19a, s.(pending := p), lines) == DoLines(cm19a, s, lines).(pending := p)
    decreases |lines|
  {
    if lines != [] {
      assert DoLine(cm19a, s.(pending := p), lines[0]) == DoLine(cm19a, s, lines[0]).(pending := p);
      DoLinesIgnorePending(cm19a, DoLine(cm19a, s, lines[0]), lines[1..], p);
    }
  }

  /** Two consecutive chunks act like one. */
  lemma TwoChunks(cm19a: bool, s: Sys, a: seq<Input1>, b: seq<Input1>)
    requires s.st.Valid()
    ensures Step(cm19a, Step(cm19a, s, Bytes(a)), Bytes(b)) == Step(cm19a, s, Bytes(a + b))
  {
    SplitAppend(s.pending, a, b);
    var (l1, p1) := Split(s.pending, a);
    var (l2, p2) := Split(p1, b);
    DoLinesAppend(cm19a, s, l1, l2);
    DoLinesIgnorePending(cm19a, DoLines(cm19a, s, l1), l2, p1);
  }

  /** One byte extends the unfinished line, or ends it and has it answered. */
  lemma StepOneByte(cm19a: bool, s: Sys, b: Input1)
    requires s.st.Valid()
    ensures Step(cm19a, s, Bytes([b])) ==
      if !EndsLine(b.c) then s.(pending := s.pending + [b.c])
      else if s.pending == "" then s
      else DoLine(cm19a, s, Line(b.fd, s.pending, b.clk)).(pending := "")
  {
    LastByte(s.pending, b);
    var line := Line(b.fd, s.pending, b.clk);
    assert DoLines(cm19a, s, []) == s;
    assert [line][1..] == [];
    assert DoLines(cm19a, s, [line]) == DoLine(cm19a, s, line);
  }

  function Flatten(chunks: seq<seq<Input1>>): seq<Input1>
    decreases |chunks|
  {
    if chunks == [] then [] else chunks[0] + Flatten(chunks[1..])
  }

  function Feed(cm19a: bool, s: Sys, chunks: seq<seq<Input1>>): Sys
    requires s.st.Valid()
    decreases |chunks|
  {
    if chunks == [] then s else Feed(cm19a, Step(cm19a, s, Bytes(chunks[0])), chunks[1..])
  }

  lemma {:induction false} FeedIsOneChunk(cm19a: bool, s: Sys, chunks: seq<seq<Input1>>)
    requires s.st.Valid()
    ensures Feed(cm19a, s, chunks) == Step(cm19a, s, Bytes(Flatten(chunks)))
    decreases |chunks|
  {
    if chunks != [] {
      FeedIsOneChunk(cm19a, Step(cm19a, s, Bytes(chunks[0])), chunks[1..]);
      TwoChunks(cm19a, s, chunks[0], Flatten(chunks[1..]));
    }
  }

  /** However a stream is cut into chunks, the gateway ends in the same state. */
  lemma ChunkingIrrelevant(cm19a: bool, s: Sys, a: seq<seq<Input1>>, b: seq<seq<Input1>>)
    requires s.st.Valid() && Flatten(a) == Flatten(b)
    ensures Feed(cm19a, s, a) == Feed(cm19a, s, b)
  {
    FeedIsOneChunk(cm19a, s, a);
    FeedIsOneChunk(cm19a, s, b);
  }

  // ----- Invariants of every run -----

  ghost predicate Inv(s: Sys) {
    && s.st.Valid()
    && s.queue.Valid()
    && NoEnd(s.pending)
  }

  lemma {:induction false} SubmitAllKeepsValid(q: Q.Queue, frames: seq<Frame>)
    requires q.Valid()
    ensures Q.SubmitAll(q, frames).Valid()
    decreases |frames|
  {
    if frames != [] { SubmitAllKeepsValid(Q.Submit(q, frames[0]), frames[1..]); }
  }

  lemma {:induction false} DoLinesKeepInv(cm19a: bool, s: Sys, lines: seq<Line>)
    requires Inv(s)
    ensures Inv(DoLines(cm19a, s, lines))
    decreases |lines|
  {
    if lines != [] {
      ProcessKeepsValid(cm19a, s.st, lines[0].text, lines[0].clk);
      SubmitAllKeepsValid(s.queue, Process(cm19a, s.st, lines[0].text, lines[0].clk).writes);
      DoLinesKeepInv(cm19a, DoLine(cm19a, s, lines[0]), lines[1..]);
    }
  }

  lemma DecodeKeepsValid(cm19a: bool, st: St, packet: Frame, after: Frame, clk: Clock)
    requires st.Valid() && |after| >= 2
    ensures Decode(cm19a, st, packet, after, clk).st.Valid()
  {
    var buf, len := DecodeBuffer(cm19a, packet, after), DecodeLength(cm19a, packet);
    if |packet| >= 4 {
      HearKeepsValid(st, ReadPl(buf, len));
      HandleRfKeepsValid(cm19a, st, buf, len, clk);
    }
  }

  lemma StepKeepsInv(cm19a: bool, s: Sys, input: Input)
    requires Inv(s) && input.Valid()
    ensures Inv(Step(cm19a, s, input))
  {
    match input
    case Bytes(bytes) =>
      SplitCuts(s.pending, bytes);
      DoLinesKeepInv(cm19a, s, Split(s.pending, bytes).0);
    case Packet(packet, after, clk) =>
      DecodeKeepsValid(cm19a, s.st, packet, after, clk);
      SubmitAllKeepsValid(if |packet| == 1 then Q.SendNext(s.queue) else s.queue,
                          Decode(cm19a, s.st, packet, after, clk).writes);
    case PollTimeout =>
  }

  /** In every reachable state the tracker's history, the sensor table, the filter and the queue are well formed. */
  lemma {:induction false} ReachableStatesValid(cm19a: bool, inputs: seq<Input>)
    requires ValidInputs(inputs)
    ensures Inv(After(cm19a, inputs))
    decreases |inputs|
  {
    if inputs == [] {
      Q.StartUpState(cm19a);
    } else {
      ReachableStatesValid(cm19a, inputs[..|inputs| - 1]);
      StepKeepsInv(cm19a, After(cm19a, inputs[..|inputs| - 1]), inputs[|inputs| - 1]);
    }
  }

  // ----- The queue under the whole gateway -----

  function Writes(frames: seq<Frame>): (acts: seq<Q.Action>)
    ensures |acts| == |frames| && forall i :: 0 <= i < |frames| ==> acts[i] == Q.Write(frames[i])
  {
    seq(|frames|, i requires 0 <= i < |frames| => Q.Write(frames[i]))
  }

  lemma {:induction false} RunAppend(q: Q.Queue, a: seq<Q.Action>, b: seq<Q.Action>)
    ensures Q.Run(q, a + b) == Q.Run(Q.Run(q, a), b)
    decreases |b|
  {
    if b == [] {
      assert a + b == a;
    } else {
      assert (a + b)[..|a + b| - 1] == a + b[..|b| - 1];
      RunAppend(q, a, b[..|b| - 1]);
    }
  }

  lemma {:induction false} SubmitAllIsRun(q: Q.Queue, frames: seq<Frame>)
    ensures Q.SubmitAll(q, frames) == Q.Run(q, Writes(frames))
    decreases |frames|
  {
    if frames != [] {
      SubmitAllIsRun(Q.Submit(q, frames[0]), frames[1..]);
      assert Writes(frames) == [Q.Write(frames[0])] + Writes(frames[1..]);
      RunAppend(q, [Q.Write(frames[0])], Writes(frames[1..]));
      assert [Q.Write(frames[0])][..0] == [];
    }
  }

  /** The frames that a batch of lines submits. */
  function LineWrites(cm19a: bool, s: Sys, lines: seq<Line>): seq<Frame>
    requires s.st.Valid()
    decreases |lines|
  {
    if lines == [] then []
    else Process(cm19a, s.st, lines[0].text, lines[0].clk).writes + LineWrites(cm19a, DoLine(cm19a, s, lines[0]), lines[1..])
  }

  lemma {:induction false} DoLinesSubmit(cm19a: bool, s: Sys, lines: seq<Line>)
    requires s.st.Valid()
    ensures DoLines(cm19a, s, lines).queue == Q.SubmitAll(s.queue, LineWrites(cm19a, s, lines))
    decreases |lines|
  {
    if lines != [] {
      DoLinesSubmit(cm19a, DoLine(cm19a, s, lines[0]), lines[1..]);
      Q.SubmitAllAppend(s.queue, Process(cm19a, s.st, lines[0].text, lines[0].clk).writes,
                        LineWrites(cm19a, DoLine(cm19a, s, lines[0]), lines[1..]));
    }
  }

  /** The frames an input submits. */
  function InputWrites(cm19a: bool, s: Sys, input: Input): seq<Frame>
    requires s.st.Valid() && input.Valid()
  {
    match input
    case Bytes(bytes) => LineWrites(cm19a, s, Split(s.pending, bytes).0)
    case Packet(packet, after, clk) => Decode(cm19a, s.st, packet, after, clk).writes
    case PollTimeout => []
  }

  /** A one-byte packet is an acknowledgement; it and a timeout release the next frame. */
  predicate Releases(input: Input) { input.PollTimeout? || (input.Packet? && |input.packet| == 1) }

  function InputActions(cm19a: bool, s: Sys, input: Input): seq<Q.Action>
    requires s.st.Valid() && input.Valid()
  {
    (if Releases(input) then [Q.Release] else []) + Writes(InputWrites(cm19a, s, input))
  }

  function Actions(cm19a: bool, inputs: seq<Input>): seq<Q.Action>
    requires ValidInputs(inputs)
    decreases |inputs|
  {
    if inputs == [] then []
    else
      var before := inputs[..|inputs| - 1];
      Actions(cm19a, before) + InputActions(cm19a, After(cm19a, before), inputs[|inputs| - 1])
  }

  lemma StepActs(cm19a: bool, s: Sys, input: Input)
    requires s.st.Valid() && input.Valid()
    ensures Step(cm19a, s, input).queue == Q.Run(s.queue, InputActions(cm19a, s, input))
  {
    var release := if Releases(input) then [Q.Release] else [];
    var writes := InputWrites(cm19a, s, input);
    assert [Q.Release][..0] == [];
    var released := Q.Run(s.queue, release);
    assert released == if Releases(input) then Q.SendNext(s.queue) else s.queue;
    RunAppend(s.queue, release, Writes(writes));
    SubmitAllIsRun(released, writes);
    if input.Bytes? { DoLinesSubmit(cm19a, s, Split(s.pending, input.bytes).0); }
  }

  /** Over every run of the gateway, the queue undergoes exactly these submissions and releases. */
  lemma {:induction false} QueueRuns(cm19a: bool, inputs: seq<Input>)
    requires ValidInputs(inputs)
    ensures After(cm19a, inputs).queue == Q.Run(Q.StartUp(cm19a), Actions(cm19a, inputs))
    decreases |inputs|
  {
    hide Step, InputActions;
    if inputs != [] {
      var before := inputs[..|inputs| - 1];
      QueueRuns(cm19a, before);
      StepActs(cm19a, After(cm19a, before), inputs[|inputs| - 1]);
      RunAppend(Q.StartUp(cm19a), Actions(cm19a, before),
                InputActions(cm19a, After(cm19a, before), inputs[|inputs| - 1]));
    }
  }

  /** Conservation over the whole gateway: the frames written to USB, then those waiting, are the start-up frames and
      every frame any command or packet submitted while there was room, in order. */
  lemma FramesConserved(cm19a: bool, inputs: seq<Input>)
    requires ValidInputs(inputs)
    ensures var q := After(cm19a, inputs).queue;
      && q.Valid()
      && q.written + q.waiting == Q.InitFrames(cm19a) + Q.Accepted(Q.StartUp(cm19a), Actions(cm19a, inputs))
  {
    QueueRuns(cm19a, inputs);
    Q.StartUpState(cm19a);
    Q.RingIsFifo(Q.StartUp(cm19a), Actions(cm19a, inputs));
  }

  /** A packet submits at most three frames, and a chunk at most four for each line it completes. */
  lemma {:induction false} LineWritesBounded(cm19a: bool, s: Sys, lines: seq<Line>)
    requires s.st.Valid()
    ensures |LineWrites(cm19a, s, lines)| <= 4 * |lines|
    decreases |lines|
  {
    if lines != [] {
      LineWritesAtMostFour(cm19a, s.st, lines[0].text, lines[0].clk);
      LineWritesBounded(cm19a, DoLine(cm19a, s, lines[0]), lines[1..]);
    }
  }

  lemma InputWritesBounded(cm19a: bool, s: Sys, input: Input)
    requires s.st.Valid() && input.Valid()
    ensures |InputWrites(cm19a, s, input)| <= match input
      case Bytes(bytes) => 4 * |Split(s.pending, bytes).0|
      case Packet(_, _, _) => 3
      case PollTimeout => 0
  {
    match input
    case Bytes(bytes) => LineWritesBounded(cm19a, s, Split(s.pending, bytes).0);
    case Packet(packet, after, clk) =>
      if |packet| >= 4 && DecodeBuffer(cm19a, packet, after)[0] == 0x5D {
        RfWritesAtMostThree(cm19a, s.st, DecodeBuffer(cm19a, packet, after), DecodeLength(cm19a, packet), clk);
      }
    case PollTimeout =>
  }

  /** The address and the function of unit u are queued behind everything else, after the repetition; the tracker is as
      after the two events, but with only unit u of the house selected. */
  ghost predicate BridgedOnce(s: Sys, s': Sys, frame: Frame, h: nat, u: nat, off: bool)
    requires ValidHistory(s.st.history) && h < 16 && u < 16 && frame != []
  {
    var byRadio := s.st.history + [Address(h, u), Function(h, !off)];
    && s'.queue.written + s'.queue.waiting
       == s.queue.written + s.queue.waiting + (Repeats(false, s.st, frame) + OnOffOnPl(h, u, off))
    && ValidHistory(byRadio) && ValidHistory(s'.st.history)
    && RowsAfter(s'.st.history) == RowsAfter(byRadio)[h := RowsAfter(byRadio)[h].(selected := Const(false)[u := true])]
  }

  /** From any reachable state of a CM15A: when a packet brings a fresh radio On or Off for a bridged house and the
      queue has room, it is bridged in exactly this way. */
  lemma BridgedPacketIsQueued(inputs: seq<Input>, packet: Frame, after: Frame, clk: Clock, h: nat, u: nat, off: bool)
    requires ValidInputs(inputs) && 4 <= |packet| <= 8 && |after| >= 2 && h < 16 && u < 16 && packet[0] == 0x5D
    requires Fresh(After(false, inputs).st, packet + after, |packet|, OnOff(h, u, off), clk)
    requires Bridged(false, After(false, inputs).st, h)
    requires |After(false, inputs).queue.waiting| + 3 <= Q.CAPACITY
    ensures var s, s' := After(false, inputs), After(false, inputs + [Packet(packet, after, clk)]);
      Inv(s) && BridgedOnce(s, s', FrameIn(packet + after, |packet|), h, u, off)
  {
    hide Step, Inv, Fresh, BridgedOnce, HandleRf;
    var s := After(false, inputs);
    var e := HandleRf(false, s.st, packet + after, |packet|, clk);
    AfterOneMore(false, inputs, Packet(packet, after, clk));
    ReachableStatesValid(false, inputs);
    RadioPacketStep(s, packet, after, clk);
    BridgedEffect(s.st, packet + after, |packet|, h, u, off, clk);
    BridgedIsQueued(s, e, FrameIn(packet + after, |packet|), h, u, off);
  }

  lemma AfterOneMore(cm19a: bool, inputs: seq<Input>, input: Input)
    requires ValidInputs(inputs) && input.Valid()
    ensures ValidInputs(inputs + [input])
    ensures After(cm19a, inputs + [input]) == Step(cm19a, After(cm19a, inputs), input)
  {
    assert (inputs + [input])[..|inputs|] == inputs;
  }

  lemma RadioPacketStep(s: Sys, packet: Frame, after: Frame, clk: Clock)
    requires s.st.Valid() && 4 <= |packet| <= 8 && |after| >= 2 && packet[0] == 0x5D
    ensures var e := HandleRf(false, s.st, packet + after, |packet|, clk);
      Step(false, s, Packet(packet, after, clk)) == s.(st := e.st, queue := Q.SubmitAll(s.queue, e.writes))
  {
    hide HandleRf;
    assert DecodeBuffer(false, packet, after) == packet + after;
  }

  lemma BridgedIsQueued(s: Sys, e: Effect, frame: Frame, h: nat, u: nat, off: bool)
    requires Inv(s) && h < 16 && u < 16 && frame != [] && |s.queue.waiting| + 3 <= Q.CAPACITY
    requires e.writes == Repeats(false, s.st, frame) + OnOffOnPl(h, u, off)
    requires e.st.history == s.st.history + [Address(h, u), Function(h, !off), Address(h, u), Function(h, !off)]
    ensures BridgedOnce(s, s.(st := e.st, queue := Q.SubmitAll(s.queue, e.writes)), frame, h, u, off)
  {
    hide RowsAfter, Q.SubmitAll;
    Q.SubmitAllWithRoom(s.queue, e.writes);
    RepeatedOnOffNarrows(s.st.history, h, u, !off);
  }

  // ----- The duplicate filter under the whole gateway -----

  /** The frame a line puts before the filter, if any. */
  function LineQuery(line: Line): seq<Dup.Query> {
    var cmd, ts := LineCommand(line.text), LineTokens(line.text);
    if IsRadio(cmd) && RadioFrame(cmd, ts).Some? then
      var frame := RadioFrame(cmd, ts).value;
      BufferQuery(BufferOf(frame), |frame|, line.clk)
    else []
  }

  function BufferQuery(buf: Frame, len: nat, clk: Clock): seq<Dup.Query>
    requires RfReadable(buf, len)
  {
    if Meaningful(ReportIn(buf, len)) then [Dup.Query(FrameIn(buf, len), clk)] else []
  }

  function LineQueries(lines: seq<Line>): seq<Dup.Query>
    decreases |lines|
  {
    if lines == [] then [] else LineQuery(lines[0]) + LineQueries(lines[1..])
  }

  function InputQueries(cm19a: bool, pending: string, input: Input): seq<Dup.Query>
    requires input.Valid()
  {
    match input
    case Bytes(bytes) => LineQueries(Split(pending, bytes).0)
    case Packet(packet, after, clk) =>
      var buf, len := DecodeBuffer(cm19a, packet, after), DecodeLength(cm19a, packet);
      if |packet| >= 4 && buf[0] == 0x5D then BufferQuery(buf, len, clk) else []
    case PollTimeout => []
  }

  function Queries(cm19a: bool, inputs: seq<Input>): seq<Dup.Query>
    requires ValidInputs(inputs)
    decreases |inputs|
  {
    if inputs == [] then []
    else
      var before := inputs[..|inputs| - 1];
      Queries(cm19a, before) + InputQueries(cm19a, After(cm19a, before).pending, inputs[|inputs| - 1])
  }

  /** The slots after further queries. */
  function Filtered(slots: seq<Dup.Slot>, qs: seq<Dup.Query>): (slots': seq<Dup.Slot>)
    requires |slots| == Dup.SLOTS
    ensures |slots'| == Dup.SLOTS
    decreases |qs|
  {
    if qs == [] then slots else Filtered(Dup.Filter(slots, qs[0].frame, qs[0].clk).1, qs[1..])
  }

  lemma {:induction false} SlotsAfterAppend(qs: seq<Dup.Query>, more: seq<Dup.Query>)
    ensures Dup.SlotsAfter(qs + more) == Filtered(Dup.SlotsAfter(qs), more)
    decreases |more|
  {
    if more == [] {
      assert qs + more == qs;
    } else {
      assert qs + more == (qs + [more[0]]) + more[1..];
      assert (qs + [more[0]])[..|qs|] == qs;
      SlotsAfterAppend(qs + [more[0]], more[1..]);
    }
  }

  lemma {:induction false} FilteredAppend(slots: seq<Dup.Slot>, a: seq<Dup.Query>, b: seq<Dup.Query>)
    requires |slots| == Dup.SLOTS
    ensures Filtered(slots, a + b) == Filtered(Filtered(slots, a), b)
    decreases |a|
  {
    if a == [] {
      assert a + b == b;
    } else {
      assert (a + b)[1..] == a[1..] + b;
      FilteredAppend(Dup.Filter(slots, a[0].frame, a[0].clk).1, a[1..], b);
    }
  }

  lemma PlKeepsDups(st: St, h: int, u: int, f: int, p3: int, p4: int, p5: int)
    requires -1 <= h < 16 && -1 <= u < 16 && -1 <= f < Codes.FUNCS
    ensures DoPl(st, h, u, f, p3, p4, p5).st.dups == st.dups
  {}

  lemma PlLineKeepsDups(st: St, ts: seq<string>)
    ensures PlLine(st, ts).st.dups == st.dups
  {
    var (h, u) := ParseAddr(Arg(ts, 1));
    PlKeepsDups(st, h, u, ParseFunc(Arg(ts, 2)), ParseParam(Arg(ts, 3)), ParseParam(Arg(ts, 4)), ParseParam(Arg(ts, 5)));
  }

  lemma BridgeKeepsDups(cm19a: bool, st: St, h: nat, u: int, f: nat, clk: Clock)
    requires h < 16 && -1 <= u < 16 && 2 <= f <= 5 && |st.dups| == Dup.SLOTS
    ensures Process(cm19a, st, BridgeLine(h, u, f), clk).st.dups == st.dups
  {
    BridgeLineIsPl(h, u, f);
    PlLineKeepsDups(st, LineTokens(BridgeLine(h, u, f)));
  }

  lemma ObeyKeepsDups(cm19a: bool, st: St, frame: Frame, r: RfReport, clk: Clock)
    requires Meaningful(r) && InRange(r) && frame != [] && |st.dups| == Dup.SLOTS
    ensures Obey(cm19a, st, frame, r, clk).st.dups == st.dups
  {
    if r.DimBright? {
      BridgeKeepsDups(cm19a, st, r.house, -1, if r.bright then Codes.FUNC_BRIGHT else Codes.FUNC_DIM, clk);
    } else if r.OnOff? {
      BridgeKeepsDups(cm19a, st.(history := st.history + [Address(r.house, r.unit), Function(r.house, !r.off)]),
                      r.house, r.unit, if r.off then Codes.FUNC_OFF else Codes.FUNC_ON, clk);
    }
  }

  lemma HandleRfFilters(cm19a: bool, st: St, buf: Frame, len: nat, clk: Clock)
    requires RfReadable(buf, len) && |st.dups| == Dup.SLOTS
    ensures HandleRf(cm19a, st, buf, len, clk).st.dups == Filtered(st.dups, BufferQuery(buf, len, clk))
  {
    var r, frame := ReportIn(buf, len), FrameIn(buf, len);
    if Meaningful(r) {
      OfferFilters(cm19a, st, frame, r, clk);
      assert [Dup.Query(frame, clk)][1..] == [];
    }
  }

  lemma OfferFilters(cm19a: bool, st: St, frame: Frame, r: RfReport, clk: Clock)
    requires Meaningful(r) && InRange(r) && frame != [] && |st.dups| == Dup.SLOTS
    ensures Offer(cm19a, st, frame, r, clk).st.dups == Dup.Filter(st.dups, frame, clk).1
  {
    ObeyKeepsDups(cm19a, st.(dups := Dup.Filter(st.dups, frame, clk).1), frame, r, clk);
  }

  lemma RunFilters(cm19a: bool, st: St, cmd: Command, ts: seq<string>, clk: Clock)
    requires |st.dups| == Dup.SLOTS
    ensures Run(cm19a, st, cmd, ts, clk).st.dups ==
      if IsRadio(cmd) && RadioFrame(cmd, ts).Some?
      then Filtered(st.dups, BufferQuery(BufferOf(RadioFrame(cmd, ts).value), |RadioFrame(cmd, ts).value|, clk))
      else st.dups
  {
    if cmd == PL {
      PlLineKeepsDups(st, ts);
    } else if IsRadio(cmd) && RadioFrame(cmd, ts).Some? {
      HandleRfFilters(cm19a, st, BufferOf(RadioFrame(cmd, ts).value), |RadioFrame(cmd, ts).value|, clk);
    }
  }

  lemma {:induction false} DoLinesFilter(cm19a: bool, s: Sys, lines: seq<Line>)
    requires s.st.Valid()
    ensures DoLines(cm19a, s, lines).st.dups == Filtered(s.st.dups, LineQueries(lines))
    decreases |lines|
  {
    if lines != [] {
      RunFilters(cm19a, s.st, LineCommand(lines[0].text), LineTokens(lines[0].text), lines[0].clk);
      DoLinesFilter(cm19a, DoLine(cm19a, s, lines[0]), lines[1..]);
      FilteredAppend(s.st.dups, LineQuery(lines[0]), LineQueries(lines[1..]));
    }
  }

  lemma StepFilters(cm19a: bool, s: Sys, input: Input)
    requires s.st.Valid() && input.Valid()
    ensures Step(cm19a, s, input).st.dups == Filtered(s.st.dups, InputQueries(cm19a, s.pending, input))
  {
    match input
    case Bytes(bytes) => DoLinesFilter(cm19a, s, Split(s.pending, bytes).0);
    case Packet(packet, after, clk) =>
      var buf, len := DecodeBuffer(cm19a, packet, after), DecodeLength(cm19a, packet);
      if |packet| >= 4 && buf[0] == 0x5D { HandleRfFilters(cm19a, s.st, buf, len, clk); }
    case PollTimeout =>
  }

  /** Over every run of the gateway, the filter's slots are those of the run of queries that the inputs make. */
  lemma {:induction false} FilterRuns(cm19a: bool, inputs: seq<Input>)
    requires ValidInputs(inputs)
    ensures After(cm19a, inputs).st.dups == Dup.SlotsAfter(Queries(cm19a, inputs))
    decreases |inputs|
  {
    if inputs != [] {
      var before := inputs[..|inputs| - 1];
      var s := After(cm19a, before);
      FilterRuns(cm19a, before);
      StepFilters(cm19a, s, inputs[|inputs| - 1]);
      SlotsAfterAppend(Queries(cm19a, before), InputQueries(cm19a, s.pending, inputs[|inputs| - 1]));
    }
  }
}
