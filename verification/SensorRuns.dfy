/** The sensor table under the whole gateway: over every run it stays the bounded map of module Sensors. */
module SensorRuns {
  import opened Common
  import opened Text
  import opened Frames
  import opened Commands
  import opened CommandProperties
  import opened System
  import opened Sensors
  import Codes
  import Dup = DupFilter

  /** What an accepted frame tells the sensor table. */
  function ReportSteps(r: RfReport, clk: Clock): seq<Sensors.Step> {
    match r
    case Security8(addr, key) => [Heard(Addr24(0, 0, addr), key, true, clk.seconds)]
    case Security24(a0, a1, a2, key) => [Heard(Addr24(a0, a1, a2), key, false, clk.seconds)]
    case _ => []
  }

  /** A frame counts only if it reads well and is not suppressed as a duplicate. */
  function RfSteps(st: St, buf: Frame, len: nat, clk: Clock): seq<Sensors.Step>
    requires RfReadable(buf, len) && |st.dups| == Dup.SLOTS
  {
    var r := ReportIn(buf, len);
    if Meaningful(r) && !Dup.Filter(st.dups, FrameIn(buf, len), clk).0 then ReportSteps(r, clk) else []
  }

  function CommandSteps(st: St, cmd: Command, ts: seq<string>, clk: Clock): seq<Sensors.Step>
    requires |st.dups| == Dup.SLOTS
  {
    if cmd == ST then [if Arg(ts, 1) == Some("0") then Cleared else Sensors.Shown]
    else if IsRadio(cmd) && RadioFrame(cmd, ts).Some? then
      RfSteps(st, BufferOf(RadioFrame(cmd, ts).value), |RadioFrame(cmd, ts).value|, clk)
    else []
  }

  function LineSteps(cm19a: bool, s: Sys, lines: seq<Line>): seq<Sensors.Step>
    requires s.st.Valid()
    decreases |lines|
  {
    if lines == [] then []
    else
      var l := lines[0];
      CommandSteps(s.st, LineCommand(l.text), LineTokens(l.text), l.clk) + LineSteps(cm19a, DoLine(cm19a, s, l), lines[1..])
  }

  function InputSteps(cm19a: bool, s: Sys, input: Input): seq<Sensors.Step>
    requires s.st.Valid() && input.Valid()
  {
    match input
    case Bytes(bytes) => LineSteps(cm19a, s, Split(s.pending, bytes).0)
    case Packet(packet, after, clk) =>
      var buf, len := DecodeBuffer(cm19a, packet, after), DecodeLength(cm19a, packet);
      if |packet| >= 4 && buf[0] == 0x5D then RfSteps(s.st, buf, len, clk) else []
    case PollTimeout => []
  }

  /** The sensor events, listings and resets of a run. */
  function SensorSteps(cm19a: bool, inputs: seq<Input>): seq<Sensors.Step>
    requires ValidInputs(inputs)
    decreases |inputs|
  {
    if inputs == [] then []
    else
      var before := inputs[..|inputs| - 1];
      SensorSteps(cm19a, before) + InputSteps(cm19a, After(cm19a, before), inputs[|inputs| - 1])
  }

  predicate ValidSteps(steps: seq<Sensors.Step>) { forall i :: 0 <= i < |steps| ==> steps[i].Valid() }

  /** The table a state holds is the one these steps lead to. */
  ghost predicate Holds(st: St, steps: seq<Sensors.Step>) {
    ValidSteps(steps) && st.sensors == TableAfter(steps)
  }

  lemma OneStep(steps: seq<Sensors.Step>, step: Sensors.Step)
    ensures TableAfter(steps + [step]) ==
      match step
      case Heard(addr, status, addr8, time) => Update(TableAfter(steps), addr, status, addr8, time)
      case Shown => Sorted(TableAfter(steps))
      case Cleared => []
  {
    assert (steps + [step])[..|steps|] == steps;
  }

  lemma PlKeepsSensors(st: St, ts: seq<string>)
    ensures PlLine(st, ts).st.sensors == st.sensors
  {
    var (h, u) := ParseAddr(Arg(ts, 1));
    DoPlKeepsSensors(st, h, u, ParseFunc(Arg(ts, 2)), ParseParam(Arg(ts, 3)), ParseParam(Arg(ts, 4)), ParseParam(Arg(ts, 5)));
  }

  lemma DoPlKeepsSensors(st: St, h: int, u: int, f: int, p3: int, p4: int, p5: int)
    requires -1 <= h < 16 && -1 <= u < 16 && -1 <= f < Codes.FUNCS
    ensures DoPl(st, h, u, f, p3, p4, p5).st.sensors == st.sensors
  {}

  lemma BridgeKeepsSensors(cm19a: bool, st: St, h: nat, u: int, f: nat, clk: Clock)
    requires h < 16 && -1 <= u < 16 && 2 <= f <= 5 && |st.dups| == Dup.SLOTS
    ensures Process(cm19a, st, BridgeLine(h, u, f), clk).st.sensors == st.sensors
  {
    hide PlLine;
    BridgeLineIsPl(h, u, f);
    PlKeepsSensors(st, LineTokens(BridgeLine(h, u, f)));
  }

  lemma HouseUnitKeepsSensors(cm19a: bool, st: St, frame: Frame, h: nat, u: int, f: nat, clk: Clock)
    requires h < 16 && -1 <= u < 16 && 2 <= f <= 5 && frame != [] && |st.dups| == Dup.SLOTS
    ensures RepeatBridge(cm19a, st, frame, h, u, f, clk).st.sensors == st.sensors
  {
    hide Process;
    BridgeKeepsSensors(cm19a, st, h, u, f, clk);
  }

  lemma ObeySteps(cm19a: bool, st: St, frame: Frame, r: RfReport, clk: Clock, steps: seq<Sensors.Step>)
    requires Meaningful(r) && InRange(r) && frame != [] && |st.dups| == Dup.SLOTS && Holds(st, steps)
    ensures Holds(Obey(cm19a, st, frame, r, clk).st, steps + ReportSteps(r, clk))
  {
    hide RepeatBridge, Process, TableAfter, Update;
    assert steps + [] == steps;
    match r
    case Camera(_, _) =>
    case Security8(addr, key) => OneStep(steps, ReportSteps(r, clk)[0]);
    case Security24(a0, a1, a2, key) => OneStep(steps, ReportSteps(r, clk)[0]);
    case DimBright(h, bright) =>
      HouseUnitKeepsSensors(cm19a, st, frame, h, -1, if bright then Codes.FUNC_BRIGHT else Codes.FUNC_DIM, clk);
    case OnOff(h, u, off) =>
      HouseUnitKeepsSensors(cm19a, OnOffHeard(st, r), frame, h, u, if off then Codes.FUNC_OFF else Codes.FUNC_ON, clk);
  }

  function OnOffHeard(st: St, r: RfReport): St
    requires r.OnOff?
  {
    st.(history := st.history + [DeviceState.Address(r.house, r.unit), DeviceState.Function(r.house, !r.off)])
  }

  lemma HandleRfSteps(cm19a: bool, st: St, buf: Frame, len: nat, clk: Clock, steps: seq<Sensors.Step>)
    requires RfReadable(buf, len) && |st.dups| == Dup.SLOTS && Holds(st, steps)
    ensures Holds(HandleRf(cm19a, st, buf, len, clk).st, steps + RfSteps(st, buf, len, clk))
  {
    hide Obey, Dup.Filter, TableAfter, FrameIn, ReportIn;
    var r, frame := ReportIn(buf, len), FrameIn(buf, len);
    assert steps + [] == steps;
    if Meaningful(r) {
      ObeySteps(cm19a, st.(dups := Dup.Filter(st.dups, frame, clk).1), frame, r, clk, steps);
    }
  }

  lemma RunSteps(cm19a: bool, st: St, cmd: Command, ts: seq<string>, clk: Clock, steps: seq<Sensors.Step>)
    requires |st.dups| == Dup.SLOTS && Holds(st, steps)
    ensures Holds(Run(cm19a, st, cmd, ts, clk).st, steps + CommandSteps(st, cmd, ts, clk))
  {
    hide HandleRf, PlLine, TableAfter, RadioFrame, RfSteps;
    assert steps + [] == steps;
    if cmd == PL {
      PlKeepsSensors(st, ts);
    } else if cmd == ST {
      OneStep(steps, CommandSteps(st, cmd, ts, clk)[0]);
    } else if IsRadio(cmd) && RadioFrame(cmd, ts).Some? {
      HandleRfSteps(cm19a, st, BufferOf(RadioFrame(cmd, ts).value), |RadioFrame(cmd, ts).value|, clk, steps);
    }
  }

  lemma {:induction false} DoLinesSteps(cm19a: bool, s: Sys, lines: seq<Line>, steps: seq<Sensors.Step>)
    requires s.st.Valid() && Holds(s.st, steps)
    ensures Holds(DoLines(cm19a, s, lines).st, steps + LineSteps(cm19a, s, lines))
    decreases |lines|
  {
    hide Run, CommandSteps, LineTokens, LineCommand, TableAfter;
    if lines == [] {
      assert steps + [] == steps;
    } else {
      var l := lines[0];
      var now := CommandSteps(s.st, LineCommand(l.text), LineTokens(l.text), l.clk);
      RunSteps(cm19a, s.st, LineCommand(l.text), LineTokens(l.text), l.clk, steps);
      DoLinesSteps(cm19a, DoLine(cm19a, s, l), lines[1..], steps + now);
      assert steps + now + LineSteps(cm19a, DoLine(cm19a, s, l), lines[1..]) == steps + LineSteps(cm19a, s, lines);
    }
  }

  lemma StepSteps(cm19a: bool, s: Sys, input: Input, steps: seq<Sensors.Step>)
    requires s.st.Valid() && input.Valid() && Holds(s.st, steps)
    ensures Holds(System.Step(cm19a, s, input).st, steps + InputSteps(cm19a, s, input))
  {
    hide HandleRf, RfSteps, DoLines, LineSteps, TableAfter;
    assert steps + [] == steps;
    match input
    case Bytes(bytes) => DoLinesSteps(cm19a, s, Split(s.pending, bytes).0, steps);
    case Packet(packet, after, clk) =>
      var buf, len := DecodeBuffer(cm19a, packet, after), DecodeLength(cm19a, packet);
      if |packet| >= 4 && buf[0] == 0x5D { HandleRfSteps(cm19a, s.st, buf, len, clk, steps); }
    case PollTimeout =>
  }

  lemma {:induction false} TableFollowsRun(cm19a: bool, inputs: seq<Input>)
    requires ValidInputs(inputs)
    ensures Holds(After(cm19a, inputs).st, SensorSteps(cm19a, inputs))
    decreases |inputs|
  {
    hide System.Step, InputSteps;
    if inputs != [] {
      var before := inputs[..|inputs| - 1];
      TableFollowsRun(cm19a, before);
      StepSteps(cm19a, After(cm19a, before), inputs[|inputs| - 1], SensorSteps(cm19a, before));
    }
  }

  /** Over every run of the gateway the sensor table is the map of its sensor events since the last reset, bounded to
      511 addresses, in which listings leave no trace. */
  lemma SensorTableIsMap(cm19a: bool, inputs: seq<Input>)
    requires ValidInputs(inputs)
    ensures var sensors := After(cm19a, inputs).st.sensors;
      && ValidTable(sensors) && |sensors| <= 511
      && Table(sensors) == MapAfter(SensorSteps(cm19a, inputs))
  {
    TableFollowsRun(cm19a, inputs);
    RunRefinesMap(SensorSteps(cm19a, inputs));
  }
}
