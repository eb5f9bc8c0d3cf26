/** Security sensors from the bytes of a packet, or the words of a line, to the answer a client gets. */
module SecurityRuns {
  import opened Common
  import opened Text
  import opened Codes
  import opened Frames
  import opened Commands
  import opened CommandProperties
  import opened Words
  import opened System
  import opened SensorRuns
  import opened SensorMeaning
  import Sensors
  import Repeater
  import Answers
  import Names
  import Dup = DupFilter

  // ----- Packets -----

  /** The frame of a sensor with a long address, and of a remote control with a short one, behind 5D. */
  function LongFrame(a0: byte, a1: byte, a2: byte, key: byte): Frame { [0x5D, 0x29, a0, a0 ^ 0x0F, key, key ^ 0xFF, a1, a2] }

  function ShortFrame(a: byte, key: byte): Frame { [0x5D, 0x20, a, a ^ 0x0F, key, key ^ 0xFF] }

  /** The number that the three bytes of a long address make, the first byte highest. */
  function Address(a0: byte, a1: byte, a2: byte): nat { 0x1_0000 * a0 as nat + 0x100 * a1 as nat + a2 as nat }

  /** As a packet: a CM19A leaves out 5D. */
  function PacketFor(cm19a: bool, frame: Frame): Frame
    requires frame != []
  {
    if cm19a then frame[1..] else frame
  }

  lemma Cancels(a: byte, m: byte)
    ensures a ^ (a ^ m) == m
  {}

  lemma LongFrameReads(a0: byte, a1: byte, a2: byte, key: byte, after: Frame)
    requires |after| >= 2 && Parity(a1 ^ a2) == 0
    ensures var buf := LongFrame(a0, a1, a2, key) + after;
      && ReportIn(buf, 8) == Security24(a0, a1, a2, key) && FrameIn(buf, 8) == LongFrame(a0, a1, a2, key)
  {
    hide Parity, ReadBytes;
    var frame := LongFrame(a0, a1, a2, key);
    var buf := frame + after;
    assert buf[0..] == buf && buf[..8] == frame;
    assert forall i :: 0 <= i < 8 ==> buf[i] == frame[i];
    Repeater.WholeFrame(buf, 8);
    Cancels(a0, 0x0F);
    Cancels(key, 0xFF);
    LongBytesRead(a0, a1, a2, key);
  }

  lemma LongBytesRead(a0: byte, a1: byte, a2: byte, key: byte)
    requires a0 ^ (a0 ^ 0x0F) == 0x0F && key ^ (key ^ 0xFF) == 0xFF && Parity(a1 ^ a2) == 0
    ensures ReadBytes(8, 0x29, a0, a0 ^ 0x0F, key, key ^ 0xFF, a1, a2) == Security24(a0, a1, a2, key)
  {
    hide Parity, ReadCam, ReadHouseUnit;
  }

  lemma ShortFrameReads(a: byte, key: byte, after: Frame)
    requires |after| >= 2
    ensures var buf := ShortFrame(a, key) + after;
      ReportIn(buf, 6) == Security8(a, key) && FrameIn(buf, 6) == ShortFrame(a, key)
  {
    hide ReadBytes;
    var frame := ShortFrame(a, key);
    var buf := frame + after;
    assert buf[0..] == buf && buf[..6] == frame;
    assert forall i :: 0 <= i < 6 ==> buf[i] == frame[i];
    Repeater.WholeFrame(buf, 6);
    Cancels(a, 0x0F);
    Cancels(key, 0xFF);
    ShortBytesRead(a, key);
  }

  lemma ShortBytesRead(a: byte, key: byte)
    requires a ^ (a ^ 0x0F) == 0x0F && key ^ (key ^ 0xFF) == 0xFF
    ensures ReadBytes(6, 0x20, a, a ^ 0x0F, key, key ^ 0xFF, 0, 0) == Security8(a, key)
  {
    hide Parity, ReadCam, ReadHouseUnit;
  }

  lemma InBuffer(cm19a: bool, frame: Frame, after: Frame)
    requires frame != [] && frame[0] == 0x5D
    ensures DecodeBuffer(cm19a, PacketFor(cm19a, frame), after) == frame + after
    ensures DecodeLength(cm19a, PacketFor(cm19a, frame)) == |frame|
  {
    assert [0x5D] + frame[1..] == frame;
    assert [] + frame + after == frame + after;
  }

  /** A packet of a sensor with a long address, if it is no duplicate and the low two address bytes have even parity, tells
      the sensor table the address, the key and the kind. */
  lemma LongPacketHeard(cm19a: bool, s: Sys, a0: byte, a1: byte, a2: byte, key: byte, after: Frame, clk: Clock)
    requires s.st.Valid() && |after| >= 2 && Parity(a1 ^ a2) == 0
    requires !Dup.Filter(s.st.dups, LongFrame(a0, a1, a2, key), clk).0
    ensures InputSteps(cm19a, s, Packet(PacketFor(cm19a, LongFrame(a0, a1, a2, key)), after, clk))
         == [Sensors.Heard(Address(a0, a1, a2), key, false, clk.seconds)]
  {
    hide Parity, Dup.Filter, ReportIn, FrameIn;
    InBuffer(cm19a, LongFrame(a0, a1, a2, key), after);
    LongFrameReads(a0, a1, a2, key, after);
    Reordered(a0, a1, a2);
  }

  lemma Reordered(a0: byte, a1: byte, a2: byte)
    ensures Sensors.Addr24(a0, a1, a2) == Address(a0, a1, a2)
      == 0x1_0000 * a0 as nat + 0x100 * a1 as nat + a2 as nat
    ensures Sensors.Addr24(0, 0, a2) == a2 as nat
  {}

  /** The same of a remote control with an 8-bit address. */
  lemma ShortPacketHeard(cm19a: bool, s: Sys, a: byte, key: byte, after: Frame, clk: Clock)
    requires s.st.Valid() && |after| >= 2 && !Dup.Filter(s.st.dups, ShortFrame(a, key), clk).0
    ensures InputSteps(cm19a, s, Packet(PacketFor(cm19a, ShortFrame(a, key)), after, clk))
         == [Sensors.Heard(a as nat, key, true, clk.seconds)]
  {
    hide Dup.Filter, ReportIn, FrameIn;
    InBuffer(cm19a, ShortFrame(a, key), after);
    ShortFrameReads(a, key, after);
    Reordered(0, 0, a);
  }

  // ----- Lines -----

  /** The line "RFSEC", an address and a name of a security function for that kind of address. */
  ghost predicate Reports(line: string, rf8: bool, addr: nat, name: string, key: byte) {
    var ts := LineTokens(line);
    && Says(line, "RFSEC") && |ts| >= 3
    && ParseRfAddr(ts[1]) == (rf8, addr) && ts[2] == name && FindSec(rf8, name, 0) == Some(key)
  }

  /** Its frame is no duplicate, and has even parity if the address is long. */
  ghost predicate Passes(st: St, rf8: bool, addr: nat, key: byte, clk: Clock)
    requires |st.dups| == Dup.SLOTS
  {
    && !Dup.Filter(st.dups, SecFrame(rf8, addr, key), clk).0
    && (rf8 || Ones(addr % 0x1_0000) % 2 == 0)
  }

  lemma LineReported(st: St, line: string, rf8: bool, addr: nat, name: string, key: byte, clk: Clock)
    requires |st.dups| == Dup.SLOTS && Reports(line, rf8, addr, name, key) && Passes(st, rf8, addr, key, clk)
    ensures CommandSteps(st, LineCommand(line), LineTokens(line), clk)
         == [Sensors.Heard(if rf8 then addr % 0x100 else addr % 0x100_0000, key, rf8, clk.seconds)]
  {
    hide Dup.Filter, LineTokens, LineCommand, ParseRfAddr, FindSec, ReportIn, FrameIn, Ones, LowByte, Says;
    PowerAndRadioWords(line);
    var ts := LineTokens(line);
    var frame := SecFrame(rf8, addr, key);
    FrameMade(ts, rf8, addr, key);
    RadioLineMeaning(RFSEC, ts, [0, 0]);
    FrameInBuffer(frame);
    AddressBytes(addr);
    LowByteValue(addr);
    Reordered(LowByte(addr / 0x1_0000), LowByte(addr / 0x100), LowByte(addr));
    if rf8 { ShortStep(st, frame, addr, key, clk); } else { LongStep(st, frame, addr, key, clk); }
  }

  lemma FrameMade(ts: seq<string>, rf8: bool, addr: nat, key: byte)
    requires |ts| >= 3 && ParseRfAddr(ts[1]) == (rf8, addr) && FindSec(rf8, ts[2], 0) == Some(key)
    ensures RadioFrame(RFSEC, ts) == Some(SecFrame(rf8, addr, key))
    ensures Intended(RFSEC, ts) == if rf8 then Security8(LowByte(addr), key)
      else if Ones(addr % 0x1_0000) % 2 == 1 then BadParity
      else Security24(LowByte(addr / 0x1_0000), LowByte(addr / 0x100), LowByte(addr), key)
  {
    hide ParseRfAddr, FindSec, LowByte, Ones;
  }

  lemma ShortStep(st: St, frame: Frame, addr: nat, key: byte, clk: Clock)
    requires |st.dups| == Dup.SLOTS && 5 <= |frame| <= 8 && frame[1] != 0x5D
    requires ReportIn(BufferOf(frame), |frame|) == Security8(LowByte(addr), key)
    requires FrameIn(BufferOf(frame), |frame|) == frame && !Dup.Filter(st.dups, frame, clk).0
    requires LowByte(addr) as int == addr % 256
    ensures RfSteps(st, BufferOf(frame), |frame|, clk) == [Sensors.Heard(addr % 0x100, key, true, clk.seconds)]
  {
    hide ReportIn, FrameIn, Dup.Filter, LowByte;
    Reordered(0, 0, LowByte(addr));
  }

  lemma LongStep(st: St, frame: Frame, addr: nat, key: byte, clk: Clock)
    requires |st.dups| == Dup.SLOTS && 5 <= |frame| <= 8 && frame[1] != 0x5D
    requires ReportIn(BufferOf(frame), |frame|)
          == Security24(LowByte(addr / 0x1_0000), LowByte(addr / 0x100), LowByte(addr), key)
    requires FrameIn(BufferOf(frame), |frame|) == frame && !Dup.Filter(st.dups, frame, clk).0
    ensures RfSteps(st, BufferOf(frame), |frame|, clk) == [Sensors.Heard(addr % 0x100_0000, key, false, clk.seconds)]
  {
    hide ReportIn, FrameIn, Dup.Filter, LowByte;
    AddressBytes(addr);
    Reordered(LowByte(addr / 0x1_0000), LowByte(addr / 0x100), LowByte(addr));
  }

  // ----- Said and asked -----

  /** Bytes of a client that spell a text and end no line. */
  function Typed(fd: int, text: string, clk: Clock): (bytes: seq<Input1>)
    ensures |bytes| == |text|
    ensures forall i :: 0 <= i < |text| ==> bytes[i] == Input1(fd, text[i], clk)
  {
    seq(|text|, i requires 0 <= i < |text| => Input1(fd, text[i], clk))
  }

  lemma {:induction false} TypedSplit(pending: string, fd: int, text: string, clk: Clock)
    requires NoEnd(text)
    ensures Split(pending, Typed(fd, text, clk)) == ([], pending + text)
    decreases |text|
  {
    var bytes := Typed(fd, text, clk);
    if text == "" {
      assert bytes == [];
      assert pending + text == pending;
    } else {
      assert bytes[1..] == Typed(fd, text[1..], clk);
      TypedSplit(pending + [text[0]], fd, text[1..], clk);
      assert pending + [text[0]] + text[1..] == pending + text;
    }
  }

  /** Typing a line without ending it changes the unfinished line only, and tells the sensor table nothing. */
  lemma TypedStep(cm19a: bool, s: Sys, fd: int, text: string, clk: Clock)
    requires s.st.Valid() && s.pending == "" && NoEnd(text)
    ensures Step(cm19a, s, Bytes(Typed(fd, text, clk))) == s.(pending := text)
    ensures InputSteps(cm19a, s, Bytes(Typed(fd, text, clk))) == []
  {
    TypedSplit("", fd, text, clk);
    assert "" + text == text;
  }

  /** The byte that ends a line: what the line tells the sensor table. */
  lemma LineStep(cm19a: bool, s: Sys, b: Input1)
    requires s.st.Valid() && EndsLine(b.c) && s.pending != ""
    ensures Step(cm19a, s, Bytes([b])).pending == ""
    ensures InputSteps(cm19a, s, Bytes([b])) == CommandSteps(s.st, LineCommand(s.pending), LineTokens(s.pending), b.clk)
  {
    hide DoLine, CommandSteps, LineTokens, LineCommand;
    LastByte(s.pending, b);
    var line := Line(b.fd, s.pending, b.clk);
    var now := CommandSteps(s.st, LineCommand(s.pending), LineTokens(s.pending), b.clk);
    OneLineSteps(cm19a, s, line);
  }

  lemma OneLineSteps(cm19a: bool, s: Sys, l: Line)
    requires s.st.Valid()
    ensures LineSteps(cm19a, s, [l]) == CommandSteps(s.st, LineCommand(l.text), LineTokens(l.text), l.clk)
  {
    hide DoLine, CommandSteps, LineTokens, LineCommand;
    var now := CommandSteps(s.st, LineCommand(l.text), LineTokens(l.text), l.clk);
    assert [l][1..] == [];
    assert LineSteps(cm19a, DoLine(cm19a, s, l), []) == [];
    assert now + [] == now;
  }

  lemma OneMoreInput(cm19a: bool, inputs: seq<Input>, input: Input)
    requires ValidInputs(inputs) && input.Valid()
    ensures ValidInputs(inputs + [input])
    ensures After(cm19a, inputs + [input]) == Step(cm19a, After(cm19a, inputs), input)
    ensures SensorSteps(cm19a, inputs + [input])
         == SensorSteps(cm19a, inputs) + InputSteps(cm19a, After(cm19a, inputs), input)
  {
    hide Step, InputSteps;
    AfterOneMore(cm19a, inputs, input);
    assert (inputs + [input])[..|inputs|] == inputs;
  }

  /** The run, the byte that ends an unfinished line, and the bytes of a next line. */
  function SaidAndAsked(inputs: seq<Input>, b: Input1, fd: int, query: string, clk: Clock): seq<Input> {
    inputs + [Bytes([b])] + [Bytes(Typed(fd, query, clk))]
  }

  lemma RunSaidAndAsked(cm19a: bool, inputs: seq<Input>, b: Input1, fd: int, query: string, clk: Clock)
    requires ValidInputs(inputs) && EndsLine(b.c) && After(cm19a, inputs).pending != "" && NoEnd(query)
    ensures var run, s := SaidAndAsked(inputs, b, fd, query, clk), After(cm19a, inputs);
      && ValidInputs(run) && After(cm19a, run).pending == query
      && After(cm19a, run).replies == After(cm19a, inputs + [Bytes([b])]).replies
      && SensorSteps(cm19a, run)
         == SensorSteps(cm19a, inputs) + CommandSteps(s.st, LineCommand(s.pending), LineTokens(s.pending), b.clk)
  {
    hide Step, InputSteps, After, SensorSteps, CommandSteps, LineTokens, LineCommand, Typed, NoEnd;
    var s := After(cm19a, inputs);
    var run1 := inputs + [Bytes([b])];
    OneMoreInput(cm19a, inputs, Bytes([b]));
    LineStep(cm19a, s, b);
    OneMoreInput(cm19a, run1, Bytes(Typed(fd, query, clk)));
    TypedStep(cm19a, After(cm19a, run1), fd, query, clk);
    assert SensorSteps(cm19a, run1) + [] == SensorSteps(cm19a, run1);
  }

  /** Asking for the address that was just reported. */
  ghost predicate AsksFor(query: string, rf8: bool, addr: nat) {
    Says(query, "GETSTATUSSEC") && |LineTokens(query)| >= 2 && ParseRfAddr(LineTokens(query)[1]) == (rf8, addr)
  }

  /** RFSEC with an address and a name, and then GETSTATUSSEC with that address: if the frame passes and leaves the address
      with an entry of its kind, the reply, to the client that asks, is "on" iff the address is a long one and the name is
      that of a motion or contact alert. */
  lemma ReportedAndAnswered(cm19a: bool, inputs: seq<Input>, b: Input1, query: string, b2: Input1,
                            rf8: bool, addr: nat, name: string, key: byte)
    requires ValidInputs(inputs) && EndsLine(b.c) && EndsLine(b2.c) && NoEnd(query)
    requires Reports(After(cm19a, inputs).pending, rf8, addr, name, key) && AsksFor(query, rf8, addr)
    requires Passes(After(cm19a, inputs).st, rf8, addr, key, b.clk)
    requires addr < (if rf8 then 0x100 else 0x100_0000) && EntersAs(SensorSteps(cm19a, inputs), addr, rf8, rf8)
    ensures var run := SaidAndAsked(inputs, b, b2.fd, query, b2.clk);
      && ValidInputs(run + [Bytes([b2])])
      && After(cm19a, run + [Bytes([b2])]).replies
         == After(cm19a, run).replies + [(b2.fd, IsOn(!rf8 && Names.IsAlertName(name)))]
  {
    hide After, SensorSteps, CommandSteps, LineTokens, LineCommand, Typed, Says, ParseRfAddr, FindSec, Passes, EntersAs;
    hide Alerts, AlertKey, Names.IsAlertName, SaidAndAsked;
    var line, st := After(cm19a, inputs).pending, After(cm19a, inputs).st;
    Answers.SomethingSaid(line, "RFSEC");
    LineReported(st, line, rf8, addr, name, key, b.clk);
    RunSaidAndAsked(cm19a, inputs, b, b2.fd, query, b2.clk);
    EventAlerts(SensorSteps(cm19a, inputs), Sensors.Heard(addr, key, rf8, b.clk.seconds), rf8);
    AlertByName(rf8, name, key);
    Answers.SensorAnswered(cm19a, SaidAndAsked(inputs, b, b2.fd, query, b2.clk), b2);
  }

  lemma AlertByName(rf8: bool, name: string, key: byte)
    requires FindSec(rf8, name, 0) == Some(key)
    ensures AlertKey(rf8, key) <==> !rf8 && Names.IsAlertName(name)
  {
    hide Names.IsAlertName, FindSec;
    LowSeven(key);
    if rf8 { Names.NoShortAlert(name, 0); } else { Names.AlertNames(name); }
  }

  /** The packet of a sensor with a long address, and then GETSTATUSSEC with that address in six hexadecimal digits: if the
      packet is no duplicate, has even parity and leaves the address with a long entry, the reply is "on" iff the key is
      that of an alert. */
  lemma PacketAnswered(cm19a: bool, inputs: seq<Input>, a0: byte, a1: byte, a2: byte, key: byte, after: Frame, clk: Clock,
                       query: string, b: Input1)
    requires ValidInputs(inputs) && |after| >= 2 && EndsLine(b.c) && NoEnd(query) && After(cm19a, inputs).pending == ""
    requires Parity(a1 ^ a2) == 0 && !Dup.Filter(After(cm19a, inputs).st.dups, LongFrame(a0, a1, a2, key), clk).0
    requires EntersAs(SensorSteps(cm19a, inputs), Address(a0, a1, a2), false, false)
    requires Says(query, "GETSTATUSSEC") && |LineTokens(query)| >= 2
    requires LineTokens(query)[1] == Names.HexAddress(a0, a1, a2)
    ensures var run := inputs + [Packet(PacketFor(cm19a, LongFrame(a0, a1, a2, key)), after, clk)]
                              + [Bytes(Typed(b.fd, query, b.clk))];
      && ValidInputs(run + [Bytes([b])])
      && After(cm19a, run + [Bytes([b])]).replies
         == After(cm19a, run).replies + [(b.fd, IsOn(AlertKey(false, key)))]
  {
    hide After, SensorSteps, InputSteps, LineTokens, LineCommand, Typed, Says, ParseRfAddr, EntersAs, Step;
    hide Alerts, AlertKey, Names.HexAddress, Dup.Filter, Parity, Address, NoEnd;
    var packet := Packet(PacketFor(cm19a, LongFrame(a0, a1, a2, key)), after, clk);
    var run1 := inputs + [packet];
    var s := After(cm19a, inputs);
    OneMoreInput(cm19a, inputs, packet);
    LongPacketHeard(cm19a, s, a0, a1, a2, key, after, clk);
    PacketKeepsLine(cm19a, s, packet);
    OneMoreInput(cm19a, run1, Bytes(Typed(b.fd, query, b.clk)));
    TypedStep(cm19a, After(cm19a, run1), b.fd, query, b.clk);
    var e := Sensors.Heard(Address(a0, a1, a2), key, false, clk.seconds);
    assert SensorSteps(cm19a, inputs) + [e] + [] == SensorSteps(cm19a, inputs) + [e];
    EventAlerts(SensorSteps(cm19a, inputs), e, false);
    LongWord(a0, a1, a2);
    Answers.SensorAnswered(cm19a, run1 + [Bytes(Typed(b.fd, query, b.clk))], b);
  }

  lemma PacketKeepsLine(cm19a: bool, s: Sys, input: Input)
    requires s.st.Valid() && input.Valid() && input.Packet?
    ensures Step(cm19a, s, input).pending == s.pending
  {}

  lemma LongWord(a0: byte, a1: byte, a2: byte)
    ensures ParseRfAddr(Names.HexAddress(a0, a1, a2)) == (false, Address(a0, a1, a2))
  {
    hide ParseRfAddr, Names.HexAddress;
    Names.LongAddressWord(a0, a1, a2);
    Reordered(a0, a1, a2);
  }
}
