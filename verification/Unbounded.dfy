/** The gateway with an unbounded duplicate filter, and the proof that the real one is that gateway as long as at most 16
    frames are within their 650 ms at once. */
module Unbounded {
  import opened Common
  import opened Frames
  import opened DeviceState
  import opened Commands
  import opened System
  import opened CommandProperties
  import Codes
  import Text
  import Sensors
  import Q = OutputQueue
  import Dup = DupFilter

  /** The slots are not used: the filter is the map. */
  datatype Ideal = Ideal(s: Sys, accepted: map<Frame, nat>)

  function Plain(st: St): St { st.(dups := Dup.Empty()) }

  /** cm15a_decode_rf with the map for a filter. */
  function HandleRf'(cm19a: bool, st: St, m: map<Frame, nat>, buf: Frame, len: nat, clk: Clock): (r: (Effect, map<Frame, nat>))
    requires RfReadable(buf, len) && |st.dups| == Dup.SLOTS
    ensures |r.0.st.dups| == Dup.SLOTS
  {
    var r, frame := ReportIn(buf, len), FrameIn(buf, len);
    if !Meaningful(r) then (Nothing(st), m)
    else
      var (suppressed, m') := Dup.MapFilter(m, frame, clk);
      (if suppressed then Nothing(st) else Obey(cm19a, st, frame, r, clk), m')
  }

  /** Only a radio line with a frame consults the filter. */
  function Process'(cm19a: bool, st: St, m: map<Frame, nat>, line: Line): (r: (Effect, map<Frame, nat>))
    requires |st.dups| == Dup.SLOTS
    ensures |r.0.st.dups| == Dup.SLOTS
  {
    var cmd, ts := LineCommand(line.text), LineTokens(line.text);
    if IsRadio(cmd) && RadioFrame(cmd, ts).Some? then
      var frame := RadioFrame(cmd, ts).value;
      var (e, m') := HandleRf'(cm19a, st, m, BufferOf(frame), |frame|, line.clk);
      (Effect(e.st, e.writes + [Wire(cm19a, frame)]), m')
    else (Process(cm19a, st, line.text, line.clk), m)
  }

  lemma HandleRfSound(cm19a: bool, st: St, m: map<Frame, nat>, buf: Frame, len: nat, clk: Clock)
    requires RfReadable(buf, len) && st.Valid()
    ensures HandleRf'(cm19a, st, m, buf, len, clk).0.st.Valid()
  {
    hide Obey;
    if Meaningful(ReportIn(buf, len)) {
      ObeyKeepsValid(cm19a, st, FrameIn(buf, len), ReportIn(buf, len), clk);
    }
  }

  lemma ProcessSound(cm19a: bool, st: St, m: map<Frame, nat>, line: Line)
    requires st.Valid()
    ensures Process'(cm19a, st, m, line).0.st.Valid()
  {
    hide HandleRf', Process, LineTokens, LineCommand, RadioFrame;
    var cmd, ts := LineCommand(line.text), LineTokens(line.text);
    ProcessKeepsValid(cm19a, st, line.text, line.clk);
    if IsRadio(cmd) && RadioFrame(cmd, ts).Some? {
      var frame := RadioFrame(cmd, ts).value;
      HandleRfSound(cm19a, st, m, BufferOf(frame), |frame|, line.clk);
    }
  }

  /** One line; what does not concern the filter is as in the real gateway. */
  function DoLine'(cm19a: bool, i: Ideal, line: Line): (i': Ideal)
    requires i.s.st.Valid()
    ensures i'.s.st.Valid()
  {
    ProcessSound(cm19a, i.s.st, i.accepted, line);
    var (e, m) := Process'(cm19a, i.s.st, i.accepted, line);
    Ideal(i.s.(st := e.st, queue := Q.SubmitAll(i.s.queue, e.writes),
               replies := i.s.replies + Sent(line.fd, ReplyTo(i.s.st, line.text))), m)
  }

  // ----- Obeying a frame does not look at the filter -----

  function With(e: Effect, dups: seq<Dup.Slot>): Effect { e.(st := e.st.(dups := dups)) }

  lemma DoPlWith(st: St, dups: seq<Dup.Slot>, h: int, u: int, f: int, p3: int, p4: int, p5: int)
    requires -1 <= h < 16 && -1 <= u < 16 && -1 <= f < Codes.FUNCS
    ensures DoPl(st.(dups := dups), h, u, f, p3, p4, p5) == With(DoPl(st, h, u, f, p3, p4, p5), dups)
  {
    hide ReadPl, ReadSent, EchoUnit, EchoDim, EchoFunc, EchoExt, SentUnit, SentDim, SentFunc, SentExt, PlEvents;
  }

  lemma PlLineWith(st: St, dups: seq<Dup.Slot>, ts: seq<string>)
    ensures PlLine(st.(dups := dups), ts) == With(PlLine(st, ts), dups)
  {
    hide DoPl, With, ParseFunc, ParseParam;
    var (h, u) := ParseAddr(Arg(ts, 1));
    DoPlWith(st, dups, h, u, ParseFunc(Arg(ts, 2)), ParseParam(Arg(ts, 3)), ParseParam(Arg(ts, 4)), ParseParam(Arg(ts, 5)));
  }

  lemma BridgeWith(cm19a: bool, st: St, dups: seq<Dup.Slot>, h: nat, u: int, f: nat, clk: Clock)
    requires h < 16 && -1 <= u < 16 && 2 <= f <= 5 && |st.dups| == Dup.SLOTS == |dups|
    ensures Process(cm19a, st.(dups := dups), BridgeLine(h, u, f), clk)
         == With(Process(cm19a, st, BridgeLine(h, u, f), clk), dups)
  {
    hide PlLine, With, LineTokens, LineCommand, BridgeLine;
    BridgeLineIsPl(h, u, f);
    PlLineWith(st, dups, LineTokens(BridgeLine(h, u, f)));
  }

  lemma SameRepeats(cm19a: bool, st: St, dups: seq<Dup.Slot>, frame: Frame)
    requires frame != []
    ensures Repeats(cm19a, st.(dups := dups), frame) == Repeats(cm19a, st, frame)
  {}

  lemma RepeatBridgeWith(cm19a: bool, st: St, dups: seq<Dup.Slot>, frame: Frame, h: nat, u: int, f: nat, clk: Clock)
    requires h < 16 && -1 <= u < 16 && 2 <= f <= 5 && frame != [] && |st.dups| == Dup.SLOTS == |dups|
    ensures RepeatBridge(cm19a, st.(dups := dups), frame, h, u, f, clk)
         == With(RepeatBridge(cm19a, st, frame, h, u, f, clk), dups)
  {
    hide Process, BridgeLine, Repeats, HouseBit;
    BridgeWith(cm19a, st, dups, h, u, f, clk);
    SameRepeats(cm19a, st, dups, frame);
  }

  lemma ObeyWith(cm19a: bool, st: St, dups: seq<Dup.Slot>, frame: Frame, r: RfReport, clk: Clock)
    requires Meaningful(r) && InRange(r) && frame != [] && |st.dups| == Dup.SLOTS == |dups|
    ensures Obey(cm19a, st.(dups := dups), frame, r, clk) == With(Obey(cm19a, st, frame, r, clk), dups)
  {
    hide RepeatBridge;
    if r.DimBright? {
      RepeatBridgeWith(cm19a, st, dups, frame, r.house, -1, if r.bright then Codes.FUNC_BRIGHT else Codes.FUNC_DIM, clk);
    } else if r.OnOff? {
      var heard := st.(history := st.history + [Address(r.house, r.unit), Function(r.house, !r.off)]);
      RepeatBridgeWith(cm19a, heard, dups, frame, r.house, r.unit, if r.off then Codes.FUNC_OFF else Codes.FUNC_ON, clk);
    }
  }

  lemma RunWith(cm19a: bool, st: St, dups: seq<Dup.Slot>, cmd: Command, ts: seq<string>, clk: Clock)
    requires |st.dups| == Dup.SLOTS == |dups| && !(IsRadio(cmd) && RadioFrame(cmd, ts).Some?)
    ensures Run(cm19a, st.(dups := dups), cmd, ts, clk) == With(Run(cm19a, st, cmd, ts, clk), dups)
  {
    hide PlLine, RadioFrame, HexBytes, HouseMask, Text.StrToNumber, Sensors.Sorted;
    if cmd == PL { PlLineWith(st, dups, ts); }
  }

  // ----- One frame, one line -----

  /** The run of queries is one in which the 16 slots answer as the map does. */
  ghost predicate Good(qs: seq<Dup.Query>) { Dup.ValidRun(qs) && Dup.FewLive(qs) }

  lemma GoodPrefix(qs: seq<Dup.Query>, more: seq<Dup.Query>)
    requires Good(qs + more)
    ensures Good(qs)
  {
    hide Dup.ValidRun, Dup.FewLive;
    Dup.RunPrefix(qs + more, |qs|);
    assert (qs + more)[..|qs|] == qs;
  }

  /** The real state and the ideal one differ in the filter only, and both filters have answered these queries. */
  ghost predicate Same(st: St, st': St, m: map<Frame, nat>, qs: seq<Dup.Query>) {
    st' == Plain(st) && st.dups == Dup.SlotsAfter(qs) && m == Dup.MapAfter(qs)
  }

  lemma OneMoreQuery(qs: seq<Dup.Query>, q: Dup.Query)
    requires Good(qs + [q])
    ensures var (suppressed, slots) := Dup.Filter(Dup.SlotsAfter(qs), q.frame, q.clk);
      var (suppressed', m) := Dup.MapFilter(Dup.MapAfter(qs), q.frame, q.clk);
      suppressed == suppressed' && slots == Dup.SlotsAfter(qs + [q]) && m == Dup.MapAfter(qs + [q])
  {
    hide Dup.Filter, Dup.MapFilter, Dup.ValidRun, Dup.FewLive;
    assert (qs + [q])[..|qs|] == qs;
    Dup.AnswersLikeUnbounded(qs + [q], |qs|);
  }

  lemma HandleSame(cm19a: bool, st: St, st': St, m: map<Frame, nat>, buf: Frame, len: nat, clk: Clock, qs: seq<Dup.Query>)
    requires RfReadable(buf, len) && Same(st, st', m, qs) && Good(qs + BufferQuery(buf, len, clk))
    ensures var e, r := HandleRf(cm19a, st, buf, len, clk), HandleRf'(cm19a, st', m, buf, len, clk);
      r.0.writes == e.writes && Same(e.st, r.0.st, r.1, qs + BufferQuery(buf, len, clk))
  {
    hide Good, Obey, Dup.Filter, Dup.MapFilter, Dup.SlotsAfter, Dup.MapAfter, FrameIn, ReportIn;
    assert qs + [] == qs;
    var r, frame := ReportIn(buf, len), FrameIn(buf, len);
    if Meaningful(r) {
      OneMoreQuery(qs, Dup.Query(frame, clk));
      var slots := Dup.Filter(st.dups, frame, clk).1;
      ObeyWith(cm19a, st, slots, frame, r, clk);
      ObeyWith(cm19a, st, Dup.Empty(), frame, r, clk);
    }
  }

  lemma LineSame(cm19a: bool, st: St, st': St, m: map<Frame, nat>, line: Line, qs: seq<Dup.Query>)
    requires Same(st, st', m, qs) && Good(qs + LineQuery(line))
    ensures var e, r := Process(cm19a, st, line.text, line.clk), Process'(cm19a, st', m, line);
      r.0.writes == e.writes && Same(e.st, r.0.st, r.1, qs + LineQuery(line))
  {
    hide Good, HandleRf, HandleRf', LineTokens, LineCommand, RadioFrame, BufferQuery, Dup.SlotsAfter, Dup.MapAfter;
    var cmd, ts := LineCommand(line.text), LineTokens(line.text);
    if IsRadio(cmd) && RadioFrame(cmd, ts).Some? {
      var frame := RadioFrame(cmd, ts).value;
      HandleSame(cm19a, st, st', m, BufferOf(frame), |frame|, line.clk, qs);
    } else {
      assert qs + [] == qs;
      QuietSame(cm19a, st, cmd, ts, line.clk);
    }
  }

  lemma QuietSame(cm19a: bool, st: St, cmd: Command, ts: seq<string>, clk: Clock)
    requires |st.dups| == Dup.SLOTS && !(IsRadio(cmd) && RadioFrame(cmd, ts).Some?)
    ensures Run(cm19a, Plain(st), cmd, ts, clk) == With(Run(cm19a, st, cmd, ts, clk), Dup.Empty())
    ensures Run(cm19a, st, cmd, ts, clk).st.dups == st.dups
  {
    hide Run, RadioFrame;
    RunWith(cm19a, st, Dup.Empty(), cmd, ts, clk);
    RunWith(cm19a, st, st.dups, cmd, ts, clk);
    assert st.(dups := st.dups) == st;
  }

  // ----- The whole gateway -----

  /** Everything but the filter is equal: tracker, sensors, settings, unfinished line, queue and replies. */
  ghost predicate Equal(s: Sys, i: Ideal, qs: seq<Dup.Query>) {
    && i.s == s.(st := Plain(s.st))
    && Same(s.st, i.s.st, i.accepted, qs)
  }

  lemma DoLineEqual(cm19a: bool, s: Sys, i: Ideal, line: Line, qs: seq<Dup.Query>)
    requires s.st.Valid() && i.s.st.Valid() && Equal(s, i, qs) && Good(qs + LineQuery(line))
    ensures Equal(DoLine(cm19a, s, line), DoLine'(cm19a, i, line), qs + LineQuery(line))
  {
    hide Good, Process, Process', LineQuery, Dup.SlotsAfter, Dup.MapAfter;
    LineSame(cm19a, s.st, i.s.st, i.accepted, line, qs);
    SameReply(s.st, line.text);
  }

  lemma SameReply(st: St, text: string)
    requires ValidHistory(st.history)
    ensures ReplyTo(Plain(st), text) == ReplyTo(st, text)
  {
    hide LineTokens, LineCommand, UnitAnswer, ParseAddr, ParseRfAddr;
  }

  function DoLines'(cm19a: bool, i: Ideal, lines: seq<Line>): (i': Ideal)
    requires i.s.st.Valid()
    ensures i'.s.st.Valid()
    decreases |lines|
  {
    if lines == [] then i else DoLines'(cm19a, DoLine'(cm19a, i, lines[0]), lines[1..])
  }

  lemma {:induction false} DoLinesEqual(cm19a: bool, s: Sys, i: Ideal, lines: seq<Line>, qs: seq<Dup.Query>)
    requires s.st.Valid() && i.s.st.Valid() && Equal(s, i, qs) && Good(qs + LineQueries(lines))
    ensures Equal(DoLines(cm19a, s, lines), DoLines'(cm19a, i, lines), qs + LineQueries(lines))
    decreases |lines|
  {
    hide Good, Equal, DoLine, DoLine', LineQuery;
    if lines == [] {
      assert qs + [] == qs;
    } else {
      var l, rest := lines[0], LineQueries(lines[1..]);
      assert qs + LineQueries(lines) == qs + LineQuery(l) + rest;
      GoodPrefix(qs + LineQuery(l), rest);
      DoLineEqual(cm19a, s, i, l, qs);
      DoLinesEqual(cm19a, DoLine(cm19a, s, l), DoLine'(cm19a, i, l), lines[1..], qs + LineQuery(l));
    }
  }

  /** cm15a_decode with the map for a filter. */
  function Decode'(cm19a: bool, st: St, m: map<Frame, nat>, packet: Frame, after: Frame, clk: Clock)
    : (r: (Effect, map<Frame, nat>))
    requires st.Valid() && |after| >= 2
    ensures r.0.st.Valid()
  {
    var buf, len := DecodeBuffer(cm19a, packet, after), DecodeLength(cm19a, packet);
    if |packet| < 4 then (Nothing(st), m)
    else if buf[0] == 0x5D then
      HandleRfSound(cm19a, st, m, buf, len, clk);
      HandleRf'(cm19a, st, m, buf, len, clk)
    else
      DecodeKeepsValid(cm19a, st, packet, after, clk);
      (Decode(cm19a, st, packet, after, clk), m)
  }

  /** One input to the ideal gateway. */
  function Step'(cm19a: bool, i: Ideal, input: Input): (i': Ideal)
    requires i.s.st.Valid() && input.Valid()
    ensures i'.s.st.Valid()
  {
    match input
    case Bytes(bytes) =>
      var (lines, rest) := Split(i.s.pending, bytes);
      var j := DoLines'(cm19a, i, lines);
      Ideal(j.s.(pending := rest), j.accepted)
    case Packet(packet, after, clk) =>
      var released := if |packet| == 1 then Q.SendNext(i.s.queue) else i.s.queue;
      var (e, m) := Decode'(cm19a, i.s.st, i.accepted, packet, after, clk);
      Ideal(i.s.(st := e.st, queue := Q.SubmitAll(released, e.writes)), m)
    case PollTimeout => Ideal(i.s.(queue := Q.SendNext(i.s.queue)), i.accepted)
  }

  /** The ideal gateway after its start-up and these inputs. */
  function After'(cm19a: bool, inputs: seq<Input>): (i: Ideal)
    requires ValidInputs(inputs)
    ensures i.s.st.Valid()
    decreases |inputs|
  {
    if inputs == [] then Ideal(Start(cm19a), map[])
    else Step'(cm19a, After'(cm19a, inputs[..|inputs| - 1]), inputs[|inputs| - 1])
  }

  /** The queries of one packet. */
  function PacketQuery(cm19a: bool, packet: Frame, after: Frame, clk: Clock): seq<Dup.Query>
    requires |packet| <= 8 && |after| >= 2
  {
    InputQueries(cm19a, "", Packet(packet, after, clk))
  }

  lemma DecodeSame(cm19a: bool, st: St, st': St, m: map<Frame, nat>, packet: Frame, after: Frame, clk: Clock, qs: seq<Dup.Query>)
    requires |packet| <= 8 && |after| >= 2 && st.Valid() && st'.Valid()
    requires Same(st, st', m, qs) && Good(qs + PacketQuery(cm19a, packet, after, clk))
    ensures var e, r := Decode(cm19a, st, packet, after, clk), Decode'(cm19a, st', m, packet, after, clk);
      r.0.writes == e.writes && Same(e.st, r.0.st, r.1, qs + PacketQuery(cm19a, packet, after, clk))
  {
    hide Good, HandleRf, HandleRf', BufferQuery, ReadPl, PlEvents, Dup.SlotsAfter, Dup.MapAfter;
    var buf, len := DecodeBuffer(cm19a, packet, after), DecodeLength(cm19a, packet);
    assert qs + [] == qs;
    if |packet| >= 4 && buf[0] == 0x5D { HandleSame(cm19a, st, st', m, buf, len, clk, qs); }
  }

  lemma StepEqual(cm19a: bool, s: Sys, i: Ideal, input: Input, qs: seq<Dup.Query>)
    requires s.st.Valid() && i.s.st.Valid() && input.Valid() && Equal(s, i, qs)
    requires Good(qs + InputQueries(cm19a, s.pending, input))
    ensures Equal(Step(cm19a, s, input), Step'(cm19a, i, input), qs + InputQueries(cm19a, s.pending, input))
  {
    hide Good, Decode, Decode', DoLines, DoLines', Dup.SlotsAfter, Dup.MapAfter, LineQueries, DecodeBuffer;
    assert qs + [] == qs;
    match input
    case Bytes(bytes) => DoLinesEqual(cm19a, s, i, Split(s.pending, bytes).0, qs);
    case Packet(packet, after, clk) => DecodeSame(cm19a, s.st, i.s.st, i.accepted, packet, after, clk, qs);
    case PollTimeout =>
  }

  /** In every run of the gateway in which the clock does not run backwards and at most 16 frames are ever live at once,
      everything but the filter is as with the unbounded filter: what the tracker and the sensor table hold, what is
      written and waiting, and what every client is answered. */
  lemma {:induction false} GatewayIsIdeal(cm19a: bool, inputs: seq<Input>)
    requires ValidInputs(inputs) && Good(Queries(cm19a, inputs))
    ensures Equal(After(cm19a, inputs), After'(cm19a, inputs), Queries(cm19a, inputs))
    decreases |inputs|
  {
    hide Good, Equal, Step, Step', InputQueries;
    if inputs == [] {
      StartEqual(cm19a);
    } else {
      var before, input := inputs[..|inputs| - 1], inputs[|inputs| - 1];
      var s := After(cm19a, before);
      GoodPrefix(Queries(cm19a, before), InputQueries(cm19a, s.pending, input));
      GatewayIsIdeal(cm19a, before);
      StepEqual(cm19a, s, After'(cm19a, before), input, Queries(cm19a, before));
    }
  }

  lemma StartEqual(cm19a: bool)
    ensures Equal(Start(cm19a), Ideal(Start(cm19a), map[]), [])
  {}
}
