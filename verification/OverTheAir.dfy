/** Radio frames from one controller to another, of either kind, and presses of a remote control in a run. */
module OverTheAir {
  import opened Common
  import opened Frames
  import opened DeviceState
  import opened Commands
  import opened CommandProperties
  import opened Words
  import opened System
  import Repeater
  import Dup = DupFilter

  /** What a controller sends for a frame it is given: a CM15A takes off the leading byte, a CM19A gets none. */
  function OnTheAir(cm19a: bool, given: Frame): Frame
    requires given != []
  {
    if cm19a then given else given[1..]
  }

  /** The packet a controller makes of what it receives: a CM15A puts 0x5D in front. */
  function AsPacket(cm19a: bool, air: Frame): Frame { if cm19a then air else [0x5D] + air }

  /** The packet that a frame of one gateway arrives as at another. */
  function PacketOf(sender: bool, receiver: bool, frame: Frame): Frame
    requires |frame| >= 2
  {
    AsPacket(receiver, OnTheAir(sender, Wire(sender, frame)))
  }

  /** A radio frame sent by either controller is decoded by either as the frame behind 0x5D. */
  lemma PacketDecodes(sender: bool, receiver: bool, st: St, frame: Frame, after: Frame, clk: Clock)
    requires 5 <= |frame| <= 8 && |after| >= 2 && |st.dups| == Dup.SLOTS
    ensures Decode(receiver, st, PacketOf(sender, receiver, frame), after, clk)
         == HandleRf(receiver, st, Received(frame) + after, |frame|, clk)
  {
    hide HandleRf;
    assert DecodeBuffer(receiver, PacketOf(sender, receiver, frame), after) == Received(frame) + after;
  }

  lemma HeardAs(cm19a: bool, st: St, frame: Frame, after: Frame, r: RfReport, clk: Clock)
    requires 5 <= |frame| <= 8 && frame[1] != 0x5D && |after| >= 2 && |st.dups| == Dup.SLOTS
    requires ReportIn(Received(frame) + after, |frame|) == r
    ensures InRange(r)
    ensures HandleRf(cm19a, st, Received(frame) + after, |frame|, clk)
         == if Meaningful(r) then Offer(cm19a, st, Received(frame), r, clk) else Nothing(st)
  {
    hide Offer, ReportIn;
    var buf := Received(frame) + after;
    assert buf[1] == frame[1] && buf[0..] == buf;
    assert FrameIn(buf, |frame|) == Received(frame);
  }

  /** For every radio line, both kinds of sender and both kinds of receiver: the receiving gateway acts on what the words
      of the line mean, if that is acceptable and no duplicate. */
  lemma RadioLineHeard(sender: bool, receiver: bool, st: St, cmd: Command, ts: seq<string>, after: Frame, clk: Clock)
    requires IsRadio(cmd) && RadioFrame(cmd, ts).Some? && |after| >= 2 && |st.dups| == Dup.SLOTS
    ensures var frame := RadioFrame(cmd, ts).value;
      && InRange(Intended(cmd, ts))
      && Decode(receiver, st, PacketOf(sender, receiver, frame), after, clk)
         == if Meaningful(Intended(cmd, ts)) then Offer(receiver, st, Received(frame), Intended(cmd, ts), clk)
            else Nothing(st)
  {
    hide Intended, HandleRf, Decode, Offer, ReportIn;
    var frame := RadioFrame(cmd, ts).value;
    PacketDecodes(sender, receiver, st, frame, after, clk);
    RadioLineMeaning(cmd, ts, after);
    HeardAs(receiver, st, frame, after, Intended(cmd, ts), clk);
  }

  /** A radio line at one gateway, and what another of either kind makes of the last frame that the line submits. */
  lemma RadioLineArrives(sender: bool, st0: St, receiver: bool, st: St, line: string, clk0: Clock, after: Frame, clk: Clock)
    requires Repeater.SaysRadio(line) && |st0.dups| == |st.dups| == Dup.SLOTS && |after| >= 2
    requires RadioFrame(Repeater.RadioCommand(line), LineTokens(line)).Some?
    ensures var cmd, ts := Repeater.RadioCommand(line), LineTokens(line);
      var writes := Process(sender, st0, line, clk0).writes;
      && writes != [] && writes[|writes| - 1] != [] && InRange(Intended(cmd, ts))
      && Decode(receiver, st, AsPacket(receiver, OnTheAir(sender, writes[|writes| - 1])), after, clk)
         == if Meaningful(Intended(cmd, ts))
            then Offer(receiver, st, Received(RadioFrame(cmd, ts).value), Intended(cmd, ts), clk) else Nothing(st)
  {
    hide Intended, HandleRf, Decode, Offer, Process, LineTokens, RadioFrame, Repeater.SaysRadio, Says;
    hide Repeater.Accepted, Repeater.RepeatedFirst;
    var cmd, ts := Repeater.RadioCommand(line), LineTokens(line);
    Repeater.RadioLineSubmits(sender, st0, line, clk0);
    RadioLineHeard(sender, receiver, st, cmd, ts, after, clk);
  }

  // ----- A lost press, in every run -----

  /** A press of On or Off as a packet. */
  function PressPacket(cm19a: bool, h: nat, u: nat, off: bool): Frame
    requires h < 16 && u < 16
  {
    AsPacket(cm19a, RfOnOff(h, u, off)[1..])
  }

  lemma PressHeard(cm19a: bool, st: St, h: nat, u: nat, off: bool, after: Frame, clk: Clock)
    requires h < 16 && u < 16 && |after| >= 2 && |st.dups| == Dup.SLOTS
    ensures Decode(cm19a, st, PressPacket(cm19a, h, u, off), after, clk).st == AfterPress(cm19a, st, h, u, off, clk)
  {
    hide HandleRf, Decode, Offer, RfOnOff, ReportIn;
    var frame := RfOnOff(h, u, off);
    PressFrameShape(h, u, off);
    PacketDecodes(false, cm19a, st, frame, after, clk);
    assert PacketOf(false, cm19a, frame) == PressPacket(cm19a, h, u, off);
    OnAir(frame, after);
    OnAir(frame, [0, 0]);
    PressReads(h, u, off);
    HeardAs(cm19a, st, frame, after, OnOff(h, u, off), clk);
    HeardAs(cm19a, st, frame, [0, 0], OnOff(h, u, off), clk);
    PressesReadable(h, u);
  }

  lemma PressFrameShape(h: nat, u: nat, off: bool)
    requires h < 16 && u < 16
    ensures |RfOnOff(h, u, off)| == 6 && RfOnOff(h, u, off)[1] == 0x20
  {}

  /** On, Off, On of one unit as three packets. */
  function ThreePresses(cm19a: bool, h: nat, u: nat, after: Frame, c1: Clock, c2: Clock, c3: Clock): (inputs: seq<Input>)
    requires h < 16 && u < 16 && |after| >= 2
    ensures |inputs| == 3
  {
    [ Packet(PressPacket(cm19a, h, u, false), after, c1),
      Packet(PressPacket(cm19a, h, u, true), after, c2),
      Packet(PressPacket(cm19a, h, u, false), after, c3) ]
  }

  /** Since then neither frame has been accepted within its 650 ms, and at most 14 frames are live. */
  ghost predicate Quiet(qs: seq<Dup.Query>, h: nat, u: nat, c1: Clock, c2: Clock)
    requires h < 16 && u < 16
  {
    var m := Dup.MapAfter(qs);
    var f, g := Received(RfOnOff(h, u, false)), Received(RfOnOff(h, u, true));
    && Dup.ValidRun(qs) && Dup.FewLive(qs) && Dup.LastNow(qs) <= c1.now
    && (f in m ==> m[f] < c1.now) && (g in m ==> m[g] < c2.now)
    && |Dup.Live(m, c1.now)| <= 14
  }

  lemma QuietIsReady(cm19a: bool, inputs: seq<Input>, h: nat, u: nat, c1: Clock, c2: Clock)
    requires ValidInputs(inputs) && h < 16 && u < 16 && Quiet(Queries(cm19a, inputs), h, u, c1, c2)
    ensures var qs := Queries(cm19a, inputs);
      ReadyFor(After(cm19a, inputs).st.dups, Dup.MapAfter(qs), Dup.LastNow(qs),
               Received(RfOnOff(h, u, false)), Received(RfOnOff(h, u, true)), c1, c2)
  {
    hide Dup.MapAfter, Dup.ValidRun, Dup.FewLive, Queries, After, Dup.SlotsAfter;
    FilterRuns(cm19a, inputs);
    Dup.SlotsKnowTheMap(Queries(cm19a, inputs));
    PressesDiffer(h, u, false, u, true);
  }

  /** From every reachable state of either controller in which both frames are quiet: after the packets On, Off, On the
      tracker shows the unit on iff the last came more than 650 ms after the first. */
  lemma LastPressLostInRun(cm19a: bool, inputs: seq<Input>, h: nat, u: nat, after: Frame, c1: Clock, c2: Clock, c3: Clock)
    requires ValidInputs(inputs) && h < 16 && u < 16 && |after| >= 2
    requires Quiet(Queries(cm19a, inputs), h, u, c1, c2)
    requires c1.now <= c1.later <= c2.now <= c2.later <= c3.now <= c3.later
    ensures var run := inputs + ThreePresses(cm19a, h, u, after, c1, c2, c3);
      && ValidInputs(run)
      && Shown(After(cm19a, run).st.history, h, u).0 == if c3.now > c1.later + 650 then On else Off
  {
    hide After, Quiet, ReadyFor, Shown, AfterPress, Queries, Dup.MapAfter, Dup.LastNow;
    var qs := Queries(cm19a, inputs);
    QuietIsReady(cm19a, inputs, h, u, c1, c2);
    PressesRun(cm19a, inputs, h, u, after, c1, c2, c3);
    LastPressLost(cm19a, After(cm19a, inputs).st, Dup.MapAfter(qs), Dup.LastNow(qs), h, u, c1, c2, c3);
  }

  lemma PressesRun(cm19a: bool, inputs: seq<Input>, h: nat, u: nat, after: Frame, c1: Clock, c2: Clock, c3: Clock)
    requires ValidInputs(inputs) && h < 16 && u < 16 && |after| >= 2
    ensures var run := inputs + ThreePresses(cm19a, h, u, after, c1, c2, c3);
      && ValidInputs(run)
      && After(cm19a, run).st == AfterThreePresses(cm19a, After(cm19a, inputs).st, h, u, c1, c2, c3)
  {
    hide After, AfterPress;
    var ps := ThreePresses(cm19a, h, u, after, c1, c2, c3);
    var run1 := inputs + [ps[0]];
    var run2 := run1 + [ps[1]];
    PressRuns(cm19a, inputs, h, u, false, after, c1);
    PressRuns(cm19a, run1, h, u, true, after, c2);
    PressRuns(cm19a, run2, h, u, false, after, c3);
    assert run2 + [ps[2]] == inputs + ps;
  }

  lemma PressRuns(cm19a: bool, inputs: seq<Input>, h: nat, u: nat, off: bool, after: Frame, clk: Clock)
    requires ValidInputs(inputs) && h < 16 && u < 16 && |after| >= 2
    ensures var run := inputs + [Packet(PressPacket(cm19a, h, u, off), after, clk)];
      && ValidInputs(run)
      && After(cm19a, run).st == AfterPress(cm19a, After(cm19a, inputs).st, h, u, off, clk)
  {
    hide After, AfterPress, Decode, RfOnOff;
    PressFrameShape(h, u, off);
    PressHeard(cm19a, After(cm19a, inputs).st, h, u, off, after, clk);
    AfterOneMore(cm19a, inputs, Packet(PressPacket(cm19a, h, u, off), after, clk));
  }
}
