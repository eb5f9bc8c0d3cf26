/** Properties of the command path over all lines, frames and states. */
module CommandProperties {
  import opened Common
  import opened Text
  import opened Codes
  import opened Frames
  import opened DeviceState
  import opened Commands
  import opened Words
  import Sensors
  import Dup = DupFilter
  import Evict = Eviction

  // ----- The state stays well formed -----

  lemma HearKeepsValid(st: St, r: PlReport)
    requires st.Valid() && (!r.PlNothing? ==> r.house < 16) && (r.PlUnit? || r.PlExt? ==> r.unit < 16)
    ensures Hear(st, r).Valid()
  {}

  lemma TxKeepsValid(st: St, h: nat, u: nat, f: nat, command: int, subcmd: int, param: int)
    requires st.Valid() && h < 16 && u < 16 && f < 16
    ensures TxUnit(st, h, u).st.Valid()
    ensures TxExt(st, h, u, command, subcmd, param).st.Valid()
    ensures TxFunc(st, h, f, param).st.Valid()
  {
    HearKeepsValid(st, ReadPl(EchoUnit(h, u), 4));
    HearKeepsValid(st, ReadPl(EchoExt(h, u, command, subcmd, param), 7));
    HearKeepsValid(st, ReadPl(EchoFunc(h, f as byte), 4));
    HearKeepsValid(st, ReadPl(EchoDim(h, f as byte, param), 5));
  }

  lemma PlKeepsValid(st: St, h: int, u: int, f: int, p3: int, p4: int, p5: int)
    requires st.Valid() && -1 <= h < 16 && -1 <= u < 16 && -1 <= f < FUNCS
    ensures DoPl(st, h, u, f, p3, p4, p5).st.Valid()
  {
    hide ReadPl, EchoUnit, EchoDim, EchoFunc, EchoExt, SentUnit, SentDim, SentFunc, SentExt;
    if h >= 0 {
      var unit := if u < 0 then 0 else u;
      var func := if 0 <= f < 16 then f else 0;
      var dims := if f == FUNC_DIM || f == FUNC_BRIGHT then OrDefault(p3, 1) else 0;
      TxKeepsValid(st, h, unit, func, 3, 1, OrDefault(p3, 1));
      TxKeepsValid(st, h, unit, func, OrDefault(p3, 0), OrDefault(p4, 0), OrDefault(p5, 0));
      TxKeepsValid(st, h, unit, func, 3, 1, dims);
      TxKeepsValid(TxUnit(st, h, unit).st, h, unit, func, 3, 1, dims);
    }
  }

  lemma SortKeepsValid(st: St)
    requires st.Valid()
    ensures st.(sensors := Sensors.Sorted(st.sensors)).Valid()
  {
    Sensors.SortedSorts(st.sensors);
    Sensors.PermutationKeepsTable(st.sensors, Sensors.Sorted(st.sensors));
  }

  lemma {:induction false} RunKeepsValid(cm19a: bool, st: St, cmd: Command, ts: seq<string>, clk: Clock)
    requires st.Valid()
    ensures Run(cm19a, st, cmd, ts, clk).st.Valid()
    decreases if cmd == PL then 0 else 2, 0
  {
    if cmd == PL {
      var (h, u) := ParseAddr(Arg(ts, 1));
      PlKeepsValid(st, h, u, ParseFunc(Arg(ts, 2)), ParseParam(Arg(ts, 3)), ParseParam(Arg(ts, 4)), ParseParam(Arg(ts, 5)));
    } else if cmd == ST {
      SortKeepsValid(st);
    } else if IsRadio(cmd) && RadioFrame(cmd, ts).Some? {
      HandleRfKeepsValid(cm19a, st, BufferOf(RadioFrame(cmd, ts).value), |RadioFrame(cmd, ts).value|, clk);
    }
  }

  lemma ProcessKeepsValid(cm19a: bool, st: St, line: string, clk: Clock)
    requires st.Valid()
    ensures Process(cm19a, st, line, clk).st.Valid()
    decreases if LineCommand(line) == PL then 0 else 2, 1
  {
    RunKeepsValid(cm19a, st, LineCommand(line), LineTokens(line), clk);
  }

  lemma {:induction false} HandleRfKeepsValid(cm19a: bool, st: St, buf: Frame, len: nat, clk: Clock)
    requires st.Valid() && RfReadable(buf, len)
    ensures HandleRf(cm19a, st, buf, len, clk).st.Valid()
    decreases 1, 3
  {
    if Meaningful(ReportIn(buf, len)) {
      OfferKeepsValid(cm19a, st, FrameIn(buf, len), ReportIn(buf, len), clk);
    }
  }

  lemma {:induction false} OfferKeepsValid(cm19a: bool, st: St, frame: Frame, r: RfReport, clk: Clock)
    requires st.Valid() && Meaningful(r) && InRange(r) && frame != []
    ensures Offer(cm19a, st, frame, r, clk).st.Valid()
    decreases 1, 2
  {
    Dup.FilterStaysValid(st.dups, frame, clk);
    if !Dup.Filter(st.dups, frame, clk).0 {
      ObeyKeepsValid(cm19a, st.(dups := Dup.Filter(st.dups, frame, clk).1), frame, r, clk);
    }
  }

  lemma {:induction false} ObeyKeepsValid(cm19a: bool, st: St, frame: Frame, r: RfReport, clk: Clock)
    requires st.Valid() && Meaningful(r) && InRange(r) && frame != []
    ensures Obey(cm19a, st, frame, r, clk).st.Valid()
    decreases 1, 1
  {
    hide RepeatBridge, Sensors.Update, Sensors.ValidTable;
    match r
    case Camera(_, _) =>
    case Security8(addr, key) =>
      Sensors.UpdateStaysValid(st.sensors, Sensors.Addr24(0, 0, addr), key, true, clk.seconds);
    case Security24(a0, a1, a2, key) =>
      Sensors.UpdateStaysValid(st.sensors, Sensors.Addr24(a0, a1, a2), key, false, clk.seconds);
    case DimBright(h, bright) =>
      BridgeKeepsValid(cm19a, st, frame, h, -1, if bright then FUNC_BRIGHT else FUNC_DIM, clk);
    case OnOff(h, u, off) =>
      var heard := st.(history := st.history + [Address(h, u), Function(h, !off)]);
      BridgeKeepsValid(cm19a, heard, frame, h, u, if off then FUNC_OFF else FUNC_ON, clk);
  }

  lemma {:induction false} BridgeKeepsValid(cm19a: bool, st: St, frame: Frame, h: nat, u: int, f: nat, clk: Clock)
    requires st.Valid() && frame != [] && h < 16 && -1 <= u < 16 && 2 <= f <= 5
    ensures RepeatBridge(cm19a, st, frame, h, u, f, clk).st.Valid()
    decreases 1, 0
  {
    hide Process, BridgeLine, LineCommand;
    BridgeLineIsPl(h, u, f);
    ProcessKeepsValid(cm19a, st, BridgeLine(h, u, f), clk);
  }

  // ----- How much one input can transmit -----

  lemma PlWritesAtMostTwo(st: St, ts: seq<string>)
    ensures |PlLine(st, ts).writes| <= 2
  {
    var (h, u) := ParseAddr(Arg(ts, 1));
    DoPlWritesAtMostTwo(st, h, u, ParseFunc(Arg(ts, 2)), ParseParam(Arg(ts, 3)), ParseParam(Arg(ts, 4)), ParseParam(Arg(ts, 5)));
  }

  lemma DoPlWritesAtMostTwo(st: St, h: int, u: int, f: int, p3: int, p4: int, p5: int)
    requires -1 <= h < 16 && -1 <= u < 16 && -1 <= f < FUNCS
    ensures |DoPl(st, h, u, f, p3, p4, p5).writes| <= 2
  {}

  lemma BridgedWrites(cm19a: bool, st: St, h: nat, u: int, f: nat, clk: Clock)
    requires h < 16 && -1 <= u < 16 && 2 <= f <= 5 && |st.dups| == Dup.SLOTS
    ensures |Process(cm19a, st, BridgeLine(h, u, f), clk).writes| <= 2
  {
    BridgeLineIsPl(h, u, f);
    PlWritesAtMostTwo(st, LineTokens(BridgeLine(h, u, f)));
  }

  lemma ObeyWritesAtMostThree(cm19a: bool, st: St, frame: Frame, r: RfReport, clk: Clock)
    requires Meaningful(r) && InRange(r) && frame != [] && |st.dups| == Dup.SLOTS
    ensures |Obey(cm19a, st, frame, r, clk).writes| <= 3
  {
    if r.DimBright? {
      BridgedWrites(cm19a, st, r.house, -1, if r.bright then FUNC_BRIGHT else FUNC_DIM, clk);
    } else if r.OnOff? {
      var st1 := st.(history := st.history + [Address(r.house, r.unit), Function(r.house, !r.off)]);
      BridgedWrites(cm19a, st1, r.house, r.unit, if r.off then FUNC_OFF else FUNC_ON, clk);
    }
  }

  /** A received radio frame submits at most three frames. */
  lemma RfWritesAtMostThree(cm19a: bool, st: St, buf: Frame, len: nat, clk: Clock)
    requires RfReadable(buf, len) && |st.dups| == Dup.SLOTS
    ensures |HandleRf(cm19a, st, buf, len, clk).writes| <= 3
  {
    var frame, r := FrameIn(buf, len), ReportIn(buf, len);
    if Meaningful(r) {
      ObeyWritesAtMostThree(cm19a, st.(dups := Dup.Filter(st.dups, frame, clk).1), frame, r, clk);
    }
  }

  /** A command line submits at most four frames, and a PL line at most two. */
  lemma LineWritesAtMostFour(cm19a: bool, st: St, line: string, clk: Clock)
    requires |st.dups| == Dup.SLOTS
    ensures |Process(cm19a, st, line, clk).writes| <= 4
    ensures LineCommand(line) == PL ==> |Process(cm19a, st, line, clk).writes| <= 2
  {
    var cmd, ts := LineCommand(line), LineTokens(line);
    if cmd == PL {
      PlWritesAtMostTwo(st, ts);
    } else {
      RunWritesAtMostFour(cm19a, st, cmd, ts, clk);
    }
  }

  lemma RunWritesAtMostFour(cm19a: bool, st: St, cmd: Command, ts: seq<string>, clk: Clock)
    requires |st.dups| == Dup.SLOTS && cmd != PL
    ensures |Run(cm19a, st, cmd, ts, clk).writes| <= 4
  {
    if IsRadio(cmd) && RadioFrame(cmd, ts).Some? {
      var frame := RadioFrame(cmd, ts).value;
      RfWritesAtMostThree(cm19a, st, BufferOf(frame), |frame|, clk);
    }
  }

  // ----- PL lines: what is transmitted is what the tracker records -----

  /** The tracker events that the power line sees in transmitted frames. */
  function EventsOf(frames: seq<Frame>): seq<Event>
    decreases |frames|
  {
    if frames == [] then [] else EventsOf(frames[..|frames| - 1]) + PlEvents(ReadSent(frames[|frames| - 1]))
  }

  /** The value of a number word, or a default for a word that is missing or -1. */
  function NumberOr(t: Option<string>, default: int): int {
    if t == None || ToInt32(StrToNumber(t.value, 10)) == -1 then default else ToInt32(StrToNumber(t.value, 10))
  }

  predicate IsExtended(f: int) { f == FUNC_EXTENDED_DIM || f == FUNC_EXTENDED_CODE_1 }

  /** The function part of a request, with the words after the function's name; h is the house, u the unit or -1, f the
      X10 function code or -1. Dim amounts are modulo 32, extended levels modulo 256. */
  function AskedFunction(h: nat, u: int, f: int, p3: Option<string>, p4: Option<string>, p5: Option<string>): seq<PlReport>
    requires -1 <= f < FUNCS
  {
    if f < 0 || (f == FUNC_EXTENDED_DIM && u < 0) then []
    else if f == FUNC_EXTENDED_DIM then [PlExt(h, u, 7, LowByte(NumberOr(p3, 1)), 0x31)]
    else if f == FUNC_EXTENDED_CODE_1 && u >= 0 then
      [PlExt(h, u, 7, LowByte(NumberOr(p5, 0)), CommandByte(NumberOr(p3, 0), NumberOr(p4, 0)))]
    else if f == FUNC_DIM || f == FUNC_BRIGHT then [PlDim(h, f as byte, NumberOr(p3, 1) % 32)]
    else [PlFunc(h, f as byte)]
  }

  /** What a request asks for: to address the unit, unless the function carries it, and then the function. */
  function Asked(h: nat, u: int, f: int, p3: Option<string>, p4: Option<string>, p5: Option<string>): seq<PlReport>
    requires -1 <= f < FUNCS
  {
    (if u < 0 || IsExtended(f) then [] else [PlUnit(h, u)]) + AskedFunction(h, u, f, p3, p4, p5)
  }

  /** What the words of a PL line ask for: the first names the house by its letter and a unit by a number from 1 to 16,
      the second the function. Without a house, nothing. */
  function AskedByWords(ts: seq<string>): seq<PlReport> {
    if |ts| <= 1 || !(1 <= |ts[1]| <= 3 && IsHouse(ts[1][0])) then []
    else
      var n := Magnitude(ts[1][1..], 10, 0);
      Asked(HouseIndex(ts[1][0]), if 1 <= n <= 16 then n - 1 else -1, ParseFunc(Arg(ts, 2)),
            Arg(ts, 3), Arg(ts, 4), Arg(ts, 5))
  }

  function Reports(frames: seq<Frame>): (rs: seq<PlReport>)
    ensures |rs| == |frames| && forall i :: 0 <= i < |frames| ==> rs[i] == ReadSent(frames[i])
  {
    seq(|frames|, i requires 0 <= i < |frames| => ReadSent(frames[i]))
  }

  /** The effect transmits frames that read as these reports, and adds exactly their events to the history. */
  ghost predicate Means(st: St, e: Effect, rs: seq<PlReport>) {
    && Reports(e.writes) == rs
    && e.st == st.(history := st.history + EventsOf(e.writes))
  }

  lemma MeansNothing(st: St)
    ensures Means(st, Nothing(st), [])
  {
    assert st.history + [] == st.history;
  }

  lemma MeansOne(st: St, w: Frame, r: PlReport)
    requires ReadSent(w) == r
    ensures Means(st, Effect(Hear(st, r), [w]), [r])
  {
    assert [w][..0] == [];
    assert EventsOf([w]) == [] + PlEvents(r) == PlEvents(r);
  }

  lemma MeansTwo(st: St, w: Frame, r: PlReport, w': Frame, r': PlReport)
    requires ReadSent(w) == r && ReadSent(w') == r'
    ensures Means(st, Effect(Hear(Hear(st, r), r'), [w] + [w']), [r, r'])
  {
    hide PlEvents, ReadSent;
    MeansOne(st, w, r);
    assert ([w] + [w'])[..1] == [w];
    assert st.history + PlEvents(r) + PlEvents(r') == st.history + (PlEvents(r) + PlEvents(r'));
  }

  lemma TxUnitMeaning(st: St, h: nat, u: nat)
    requires h < 16 && u < 16
    ensures TxUnit(st, h, u) == Effect(Hear(st, PlUnit(h, u)), [SentUnit(h, u)])
    ensures ReadSent(SentUnit(h, u)) == PlUnit(h, u)
  {
    PlUnitAgrees(h, u);
  }

  function FuncReport(h: nat, f: nat, param: int): PlReport
    requires f < 16
  {
    if f == FUNC_DIM || f == FUNC_BRIGHT then PlDim(h, f as byte, param % 32) else PlFunc(h, f as byte)
  }

  function FuncFrame(h: nat, f: nat, param: int): Frame
    requires h < 16 && f < 16
  {
    if f == FUNC_DIM || f == FUNC_BRIGHT then SentDim(h, f as byte, param) else SentFunc(h, f as byte)
  }

  lemma TxFuncMeaning(st: St, h: nat, f: nat, param: int)
    requires h < 16 && f < 16
    ensures TxFunc(st, h, f, param) == Effect(Hear(st, FuncReport(h, f, param)), [FuncFrame(h, f, param)])
    ensures ReadSent(FuncFrame(h, f, param)) == FuncReport(h, f, param)
  {
    PlDimAgrees(h, f as byte, param);
    PlFuncAgrees(h, f as byte);
  }

  lemma TxUnitFuncMeaning(st: St, h: nat, u: nat, f: nat, param: int)
    requires h < 16 && u < 16 && f < 16
    ensures TxUnitFunc(st, h, u, f, param) ==
      Effect(Hear(Hear(st, PlUnit(h, u)), FuncReport(h, f, param)), [SentUnit(h, u)] + [FuncFrame(h, f, param)])
    ensures Means(st, TxUnitFunc(st, h, u, f, param), [PlUnit(h, u), FuncReport(h, f, param)])
  {
    TxUnitMeaning(st, h, u);
    TxFuncMeaning(Hear(st, PlUnit(h, u)), h, f, param);
    MeansTwo(st, SentUnit(h, u), PlUnit(h, u), FuncFrame(h, f, param), FuncReport(h, f, param));
  }

  lemma TxExtMeaning(st: St, h: nat, u: nat, command: int, subcmd: int, param: int)
    requires h < 16 && u < 16
    ensures Means(st, TxExt(st, h, u, command, subcmd, param),
                  [PlExt(h, u, 7, LowByte(param), CommandByte(command, subcmd))])
  {
    PlExtAgrees(h, u, command, subcmd, param);
    MeansOne(st, SentExt(h, u, command, subcmd, param), PlExt(h, u, 7, LowByte(param), CommandByte(command, subcmd)));
  }

  lemma ThreeAndOneIsXdim()
    ensures CommandByte(3, 1) == 0x31
  {
    hide LowByte;
    LowByteValue(3);
    LowByteValue(1);
    SameByte(LowByte(3), 3);
    SameByte(LowByte(1), 1);
  }

  lemma HouseLineMeaning(st: St, h: nat, f: int, p3: Option<string>, p4: Option<string>, p5: Option<string>)
    requires h < 16 && -1 <= f < FUNCS
    ensures Means(st, DoPl(st, h, -1, f, ParseParam(p3), ParseParam(p4), ParseParam(p5)), Asked(h, -1, f, p3, p4, p5))
  {
    hide Means, ReadPl, ReadSent, TxFunc, ToInt32, StrToNumber;
    var asked := Asked(h, -1, f, p3, p4, p5);
    if f < 0 || f == FUNC_EXTENDED_DIM {
      assert asked == [];
      MeansNothing(st);
    } else {
      var param := if f == FUNC_DIM || f == FUNC_BRIGHT then NumberOr(p3, 1) else 0;
      assert asked == [FuncReport(h, f, param)];
      TxFuncMeaning(st, h, f, param);
      MeansOne(st, FuncFrame(h, f, param), FuncReport(h, f, param));
    }
  }

  lemma UnitLineMeaning(st: St, h: nat, u: nat, f: int, p3: Option<string>, p4: Option<string>, p5: Option<string>)
    requires h < 16 && u < 16 && -1 <= f < FUNCS
    ensures Means(st, DoPl(st, h, u, f, ParseParam(p3), ParseParam(p4), ParseParam(p5)), Asked(h, u, f, p3, p4, p5))
  {
    hide Means, ReadPl, ReadSent, TxUnit, TxUnitFunc, TxExt, ToInt32, StrToNumber;
    var asked := Asked(h, u, f, p3, p4, p5);
    if f < 0 {
      assert asked == [PlUnit(h, u)];
      TxUnitMeaning(st, h, u);
      MeansOne(st, SentUnit(h, u), PlUnit(h, u));
    } else if f == FUNC_EXTENDED_DIM {
      assert asked == AskedFunction(h, u, f, p3, p4, p5);
      TxExtMeaning(st, h, u, 3, 1, NumberOr(p3, 1));
      ThreeAndOneIsXdim();
    } else if f == FUNC_EXTENDED_CODE_1 {
      assert asked == AskedFunction(h, u, f, p3, p4, p5);
      TxExtMeaning(st, h, u, NumberOr(p3, 0), NumberOr(p4, 0), NumberOr(p5, 0));
    } else {
      var param := if f == FUNC_DIM || f == FUNC_BRIGHT then NumberOr(p3, 1) else 0;
      assert asked == [PlUnit(h, u), FuncReport(h, f, param)];
      TxUnitFuncMeaning(st, h, u, f, param);
    }
  }

  // ----- Addresses -----

  /** For every address word: the house is its first letter, and the unit the number after it if that is 1 to 16. */
  lemma AddressMeaning(w: string)
    ensures var (h, u) := ParseAddr(Some(w));
      if 1 <= |w| <= 3 && IsHouse(w[0]) then
        && h == HouseIndex(w[0])
        && u == (if 1 <= Magnitude(w[1..], 10, 0) <= 16 then Magnitude(w[1..], 10, 0) - 1 else -1)
      else (h, u) == NO_ADDRESS
  {
    if |w| >= 2 {
      assert w[1..][0] == w[1];
      if |w| == 3 {
        assert w[1..][1..] == [w[2]];
        assert Magnitude([w[2]], 10, DigitValue(w[1]))
            == if IsDigit(w[2]) then 10 * DigitValue(w[1]) + DigitValue(w[2]) else DigitValue(w[1]);
      } else if |w| == 2 {
        assert w[1..][1..] == "";
      }
    }
  }

  // ----- PL lines as a whole -----

  lemma PlWordsMeaning(st: St, ts: seq<string>)
    ensures Means(st, PlLine(st, ts), AskedByWords(ts))
  {
    hide Means, DoPl, Asked, ParseParam, ParseFunc;
    if |ts| <= 1 {
      MeansNothing(st);
      NoHouseNothing(st, -1, ParseFunc(Arg(ts, 2)), ParseParam(Arg(ts, 3)), ParseParam(Arg(ts, 4)), ParseParam(Arg(ts, 5)));
    } else {
      AddressMeaning(ts[1]);
      var (h, u) := ParseAddr(Some(ts[1]));
      if h < 0 {
        MeansNothing(st);
        NoHouseNothing(st, u, ParseFunc(Arg(ts, 2)), ParseParam(Arg(ts, 3)), ParseParam(Arg(ts, 4)), ParseParam(Arg(ts, 5)));
      } else if u < 0 {
        HouseLineMeaning(st, h, ParseFunc(Arg(ts, 2)), Arg(ts, 3), Arg(ts, 4), Arg(ts, 5));
      } else {
        UnitLineMeaning(st, h, u, ParseFunc(Arg(ts, 2)), Arg(ts, 3), Arg(ts, 4), Arg(ts, 5));
      }
    }
  }

  lemma NoHouseNothing(st: St, u: int, f: int, p3: int, p4: int, p5: int)
    requires -1 <= u < 16 && -1 <= f < FUNCS
    ensures DoPl(st, -1, u, f, p3, p4, p5) == Nothing(st)
  {}

  /** Every PL line, in every state, transmits exactly what its words ask for, and records exactly that in the tracker's
      history. */
  lemma PlLineTransmitsWhatIsAsked(cm19a: bool, st: St, line: string, clk: Clock)
    requires Says(line, "PL") && |st.dups| == Dup.SLOTS
    ensures Means(st, Process(cm19a, st, line, clk), AskedByWords(LineTokens(line)))
  {
    hide Means, PlLine, AskedByWords, LineTokens, LineCommand, Says;
    PowerAndRadioWords(line);
    PlWordsMeaning(st, LineTokens(line));
  }

  // ----- The bridge -----

  /** The frames that turn unit u of house h on or off over the power line. */
  function OnOffOnPl(h: nat, u: nat, off: bool): seq<Frame>
    requires h < 16 && u < 16
  {
    [SentUnit(h, u), SentFunc(h, if off then 3 else 2)]
  }

  /** The printed line, parsed again, transmits the unit's address and the function and records both. */
  lemma BridgeLineEffect(cm19a: bool, st: St, h: nat, u: nat, off: bool, clk: Clock)
    requires h < 16 && u < 16 && |st.dups| == Dup.SLOTS
    ensures Process(cm19a, st, BridgeLine(h, u, if off then FUNC_OFF else FUNC_ON), clk)
         == Effect(st.(history := st.history + [Address(h, u), Function(h, !off)]), OnOffOnPl(h, u, off))
  {
    var f := if off then FUNC_OFF else FUNC_ON;
    var line := BridgeLine(h, u, f);
    BridgeLineIsPl(h, u, f);
    BridgeLineParses(h, u, f);
    PlOnOffEffect(st, h, u, off, ParseParam(Arg(LineTokens(line), 3)), ParseParam(Arg(LineTokens(line), 4)),
                  ParseParam(Arg(LineTokens(line), 5)));
  }

  lemma BridgeLineParses(h: nat, u: int, f: nat)
    requires h < 16 && -1 <= u < 16 && 2 <= f <= 5
    ensures ParseAddr(Arg(LineTokens(BridgeLine(h, u, f)), 1)) == (h as int, u)
    ensures ParseFunc(Arg(LineTokens(BridgeLine(h, u, f)), 2)) == f
  {
    BridgeLineTokens(h, u, f);
    AddrRoundTrip(h, u);
    PrintedFuncParses(f);
  }

  lemma PlOnOffEffect(st: St, h: nat, u: nat, off: bool, p3: int, p4: int, p5: int)
    requires h < 16 && u < 16
    ensures DoPl(st, h, u, if off then FUNC_OFF else FUNC_ON, p3, p4, p5)
         == Effect(st.(history := st.history + [Address(h, u), Function(h, !off)]), OnOffOnPl(h, u, off))
  {
    TxUnitFuncMeaning(st, h, u, if off then FUNC_OFF else FUNC_ON, 0);
    assert OnOffOnPl(h, u, off) == [SentUnit(h, u)] + [FuncFrame(h, if off then FUNC_OFF else FUNC_ON, 0)];
    assert st.history + [Address(h, u)] + [Function(h, !off)] == st.history + [Address(h, u), Function(h, !off)];
  }

  /** The buffer holds a frame with this reading that is not a duplicate. */
  ghost predicate Fresh(st: St, buf: Frame, len: nat, r: RfReport, clk: Clock)
    requires RfReadable(buf, len) && |st.dups| == Dup.SLOTS
  {
    Meaningful(r) && ReportIn(buf, len) == r && !Dup.Filter(st.dups, FrameIn(buf, len), clk).0
  }

  /** From any state, a fresh radio On or Off for a bridged house submits the repetition if enabled, then exactly the
      power-line address and function; the same frame unbridged submits only the repetition. Bridging changes
      neither status nor dim level of any unit, and narrows the selection of the house to the unit. */
  lemma BridgeOnOff(st: St, buf: Frame, len: nat, h: nat, u: nat, off: bool, clk: Clock)
    requires st.Valid() && RfReadable(buf, len)
    requires Fresh(st, buf, len, OnOff(h, u, off), clk) && h < 16 && u < 16
    requires st.rfToPl & HouseBit(h) != 0
    ensures var bridged := HandleRf(false, st, buf, len, clk);
      var alone := HandleRf(false, st.(rfToPl := 0), buf, len, clk);
      && bridged.writes == alone.writes + OnOffOnPl(h, u, off)
      && |alone.writes| == (if st.rfToRf == 0 then 0 else 1)
      && bridged.st.(history := [], rfToPl := 0) == alone.st.(history := [], rfToPl := 0)
      && ValidHistory(bridged.st.history) && ValidHistory(alone.st.history)
      && RowsAfter(bridged.st.history) ==
           var rows := RowsAfter(alone.st.history);
           rows[h := rows[h].(selected := Const(false)[u := true])]
  {
    hide HandleRf, RowsAfter, Dup.Filter, OnOffOnPl, FrameIn, ReportIn;
    ZeroHasNoBit(h);
    BridgedEffect(st, buf, len, h, u, off, clk);
    AloneEffect(st.(rfToPl := 0), buf, len, h, u, off, clk);
    RepeatedOnOffNarrows(st.history, h, u, !off);
  }

  lemma BridgedEffect(st: St, buf: Frame, len: nat, h: nat, u: nat, off: bool, clk: Clock)
    requires |st.dups| == Dup.SLOTS && RfReadable(buf, len) && h < 16 && u < 16
    requires Fresh(st, buf, len, OnOff(h, u, off), clk) && Bridged(false, st, h)
    ensures FrameIn(buf, len) != []
    ensures HandleRf(false, st, buf, len, clk) ==
      Effect(st.(dups := Dup.Filter(st.dups, FrameIn(buf, len), clk).1,
                 history := st.history + [Address(h, u), Function(h, !off), Address(h, u), Function(h, !off)]),
             Repeats(false, st, FrameIn(buf, len)) + OnOffOnPl(h, u, off))
  {
    hide Obey, FrameIn, ReportIn, Dup.Filter, OnOffOnPl;
    ObeyBridged(st.(dups := Dup.Filter(st.dups, FrameIn(buf, len), clk).1), FrameIn(buf, len), h, u, off, clk);
  }

  lemma AloneEffect(st: St, buf: Frame, len: nat, h: nat, u: nat, off: bool, clk: Clock)
    requires |st.dups| == Dup.SLOTS && RfReadable(buf, len) && h < 16 && u < 16
    requires Fresh(st, buf, len, OnOff(h, u, off), clk) && !Bridged(false, st, h)
    ensures FrameIn(buf, len) != []
    ensures HandleRf(false, st, buf, len, clk) ==
      Effect(st.(dups := Dup.Filter(st.dups, FrameIn(buf, len), clk).1,
                 history := st.history + [Address(h, u), Function(h, !off)]),
             Repeats(false, st, FrameIn(buf, len)))
  {
    hide Obey, FrameIn, ReportIn, Dup.Filter;
    ObeyAlone(false, st.(dups := Dup.Filter(st.dups, FrameIn(buf, len), clk).1), FrameIn(buf, len), h, u, off, clk);
  }

  lemma ObeyBridged(st: St, frame: Frame, h: nat, u: nat, off: bool, clk: Clock)
    requires h < 16 && u < 16 && frame != [] && |st.dups| == Dup.SLOTS && Bridged(false, st, h)
    ensures Obey(false, st, frame, OnOff(h, u, off), clk) ==
      Effect(st.(history := st.history + [Address(h, u), Function(h, !off), Address(h, u), Function(h, !off)]),
             Repeats(false, st, frame) + OnOffOnPl(h, u, off))
  {
    var heard := [Address(h, u), Function(h, !off)];
    BridgeLineEffect(false, st.(history := st.history + heard), h, u, off, clk);
    assert st.history + heard + heard == st.history + [Address(h, u), Function(h, !off), Address(h, u), Function(h, !off)];
  }

  lemma ObeyAlone(cm19a: bool, st: St, frame: Frame, h: nat, u: nat, off: bool, clk: Clock)
    requires h < 16 && u < 16 && frame != [] && |st.dups| == Dup.SLOTS && !Bridged(cm19a, st, h)
    ensures Obey(cm19a, st, frame, OnOff(h, u, off), clk) ==
      Effect(st.(history := st.history + [Address(h, u), Function(h, !off)]), Repeats(cm19a, st, frame))
  {}

  /** From any state, a fresh radio Dim or Bright for a bridged house submits the repetition if enabled, then exactly one
      power-line step of it, and leaves the tracker as it was. */
  lemma BridgeDimBright(st: St, buf: Frame, len: nat, h: nat, bright: bool, clk: Clock)
    requires |st.dups| == Dup.SLOTS && RfReadable(buf, len) && h < 16
    requires Fresh(st, buf, len, DimBright(h, bright), clk) && Bridged(false, st, h)
    ensures var f: byte := if bright then 5 else 4;
      && HandleRf(false, st, buf, len, clk)
         == Effect(st.(dups := Dup.Filter(st.dups, FrameIn(buf, len), clk).1),
                   Repeats(false, st, FrameIn(buf, len)) + [SentDim(h, f, 1)])
      && ReadSent(SentDim(h, f, 1)) == PlDim(h, f, 1)
  {
    hide Obey, FrameIn, ReportIn, Dup.Filter, SentDim, ReadSent;
    PlDimAgrees(h, if bright then 5 else 4, 1);
    ObeyDimBright(st.(dups := Dup.Filter(st.dups, FrameIn(buf, len), clk).1), FrameIn(buf, len), h, bright, clk);
  }

  lemma ObeyDimBright(st: St, frame: Frame, h: nat, bright: bool, clk: Clock)
    requires h < 16 && frame != [] && |st.dups| == Dup.SLOTS && Bridged(false, st, h)
    ensures Obey(false, st, frame, DimBright(h, bright), clk)
         == Effect(st, Repeats(false, st, frame) + [SentDim(h, if bright then 5 else 4, 1)])
  {
    hide Process, SentDim;
    DimLineEffect(false, st, h, bright, clk);
  }

  /** The printed line has no amount, so one step is sent. */
  lemma DimLineEffect(cm19a: bool, st: St, h: nat, bright: bool, clk: Clock)
    requires h < 16 && |st.dups| == Dup.SLOTS
    ensures Process(cm19a, st, BridgeLine(h, -1, if bright then FUNC_BRIGHT else FUNC_DIM), clk)
         == Effect(st, [SentDim(h, if bright then 5 else 4, 1)])
  {
    hide SentDim, ReadPl, EchoDim, BridgeLine, LineTokens, LineCommand;
    var f := if bright then FUNC_BRIGHT else FUNC_DIM;
    var ts := LineTokens(BridgeLine(h, -1, f));
    BridgeLineIsPl(h, -1, f);
    BridgeLineParses(h, -1, f);
    BridgeLineTokens(h, -1, f);
    assert Arg(ts, 3) == None && Arg(ts, 4) == None && Arg(ts, 5) == None;
    PlDimAgrees(h, f as byte, 1);
    assert st.history + [] == st.history;
    DimEffect(st, h, f);
  }

  lemma DimEffect(st: St, h: nat, f: nat)
    requires h < 16 && f in {FUNC_DIM, FUNC_BRIGHT}
    ensures DoPl(st, h, -1, f, -1, -1, -1) == Effect(st, [SentDim(h, f as byte, 1)])
  {
    hide SentDim, ReadPl, EchoDim;
    PlDimAgrees(h, f as byte, 1);
    assert st.history + [] == st.history;
  }

  lemma ZeroHasNoBit(h: nat)
    requires h < 16
    ensures (0 as bv16) & HouseBit(h) == 0
  {}

  // ----- The house mask -----

  lemma BitsDistinct(g: nat, h: nat)
    requires g < 16 && h < 16
    ensures HouseBit(g) & HouseBit(h) != 0 <==> g == h
    ensures 0xFFFF & HouseBit(h) != 0
  {
    BitValue(g);
    BitValue(h);
  }

  lemma BitValue(h: nat)
    requires h < 16
    ensures HouseBit(h) == [0x0001, 0x0002, 0x0004, 0x0008, 0x0010, 0x0020, 0x0040, 0x0080,
                            0x0100, 0x0200, 0x0400, 0x0800, 0x1000, 0x2000, 0x4000, 0x8000][h]
  {}

  lemma {:induction false} LetterBitsMeaning(w: string, h: nat)
    requires h < 16
    ensures LetterBits(w) & HouseBit(h) != 0 <==> HouseChar(h) in w
    decreases |w|
  {
    if w == "" {
      ZeroHasNoBit(h);
    } else {
      var c, init := w[|w| - 1], w[..|w| - 1];
      LetterBitsMeaning(init, h);
      assert HouseChar(h) in w <==> HouseChar(h) in init || HouseChar(h) == c;
      if IsHouse(c) {
        BitsDistinct(HouseIndex(c), h);
        OrBit(LetterBits(init), HouseBit(HouseIndex(c)), HouseBit(h));
      } else {
        OrBit(LetterBits(init), 0, HouseBit(h));
        ZeroHasNoBit(h);
      }
    }
  }

  lemma OrBit(a: bv16, b: bv16, m: bv16)
    requires m != 0 && m & (m - 1) == 0
    ensures (a | b) & m != 0 <==> a & m != 0 || b & m != 0
  {}

  function LowerHouse(h: nat): char
    requires h < 16
  {
    ('a' as int + h) as char
  }

  /** The word written by the user bridges house h: it is "*", or contains the letter of h in either case. */
  predicate Names(w: string, h: nat)
    requires h < 16
  {
    w == "*" || HouseChar(h) in w || LowerHouse(h) in w
  }

  lemma UpperNames(w: string, h: nat)
    requires h < 16
    ensures HouseChar(h) in Upper(w) <==> HouseChar(h) in w || LowerHouse(h) in w
    ensures Upper(w) == "*" <==> w == "*"
  {
    if HouseChar(h) in Upper(w) {
      var i :| 0 <= i < |w| && Upper(w)[i] == HouseChar(h);
      assert w[i] == HouseChar(h) || w[i] == LowerHouse(h);
    }
    if HouseChar(h) in w {
      var i :| 0 <= i < |w| && w[i] == HouseChar(h);
      assert Upper(w)[i] == HouseChar(h);
    }
    if LowerHouse(h) in w {
      var i :| 0 <= i < |w| && w[i] == LowerHouse(h);
      assert Upper(w)[i] == HouseChar(h);
    }
  }

  lemma MaskMeaning(w: string, h: nat)
    requires h < 16
    ensures HouseMask(Some(Upper(w))) & HouseBit(h) != 0 <==> Names(w, h)
  {
    UpperNames(w, h);
    if Upper(w) == "" {
      ZeroHasNoBit(h);
    } else if Upper(w) == "*" {
      BitsDistinct(h, h);
    } else {
      LetterBitsMeaning(Upper(w), h);
    }
  }

  /** After any RFTOPL line, exactly the houses its first argument names are bridged. */
  lemma RfToPlLine(st: St, line: string, clk: Clock, h: nat)
    requires Says(line, "RFTOPL") && |st.dups| == Dup.SLOTS && h < 16
    ensures var e := Process(false, st, line, clk);
      && e == Nothing(st.(rfToPl := e.st.rfToPl))
      && (Bridged(false, e.st, h) <==> |Tokens(line)| > 1 && Names(Tokens(line)[1], h))
  {
    hide LineCommand, LineTokens, Says, HouseMask, Tokens, HouseBit, Names, Run;
    SettingAndQueryWords(line);
    SecondWord(line);
    RunRfToPl(st, LineTokens(line), clk);
    if |Tokens(line)| > 1 {
      MaskMeaning(Tokens(line)[1], h);
    } else {
      NoMask();
      ZeroHasNoBit(h);
    }
  }

  lemma RunRfToPl(st: St, ts: seq<string>, clk: Clock)
    requires |st.dups| == Dup.SLOTS
    ensures Run(false, st, RFTOPL, ts, clk) == Nothing(st.(rfToPl := HouseMask(Arg(ts, 1))))
  {
    hide HouseMask;
  }

  lemma SecondWord(line: string)
    ensures Arg(LineTokens(line), 1) == if |Tokens(line)| > 1 then Some(Upper(Tokens(line)[1])) else None
  {
    hide Tokens, Upper;
    UpperTokens(line);
  }

  lemma NoMask()
    ensures HouseMask(None) == 0
  {}

  // ----- Radio frames carry what the line asks for -----

  /** What the words of a radio line mean on the air. */
  function Intended(cmd: Command, ts: seq<string>): RfReport
    requires IsRadio(cmd) && RadioFrame(cmd, ts).Some?
  {
    match cmd
    case RF =>
      var (h, u) := ParseAddr(Arg(ts, 1));
      var f := ParseFunc(Arg(ts, 2));
      if f == FUNC_ON || f == FUNC_OFF then OnOff(h, u, f == FUNC_OFF) else DimBright(h, f == FUNC_BRIGHT)
    case RFSEC =>
      var (rf8, addr) := ParseRfAddr(ts[1]);
      var key := FindSec(rf8, ts[2], 0).value;
      if rf8 then Security8(LowByte(addr), key)
      else if Ones(addr % 0x1_0000) % 2 == 1 then BadParity
      else Security24(LowByte(addr / 0x1_0000), LowByte(addr / 0x100), LowByte(addr), key)
    case RFCAM => Camera(ParseAddr(Arg(ts, 1)).0, CamCode(FindCam(ts[2], 0)))
  }

  /** A transmitted frame, received behind 0x5D and whatever follows it in memory, reads like the local echo. */
  lemma OnAir(frame: Frame, after: Frame)
    requires 5 <= |frame| <= 8 && frame[1] != 0x5D && (|frame| == 5 ==> frame[1] == 0x14) && |after| >= 2
    ensures RfReadable(Received(frame) + after, |frame|)
    ensures ReportIn(Received(frame) + after, |frame|) == ReportIn(BufferOf(frame), |frame|)
         == ReadRf(BufferOf(frame), |frame|)
  {
    var b, c := Received(frame) + after, BufferOf(frame);
    assert b[1] == c[1] == frame[1] && b[2] == c[2] && b[3] == c[3] && b[4] == c[4];
    assert b[0..] == b && c[0..] == c;
    if |frame| > 5 { assert b[5] == c[5]; }
    if |frame| == 8 { assert b[6] == c[6] && b[7] == c[7]; }
    if |frame| == 5 { FifthByteUnread(b, c); } else { SameRead(b, c, |frame|); }
  }

  /** A five-byte camera frame is read without the byte after it. */
  lemma FifthByteUnread(b: Frame, c: Frame)
    requires RfReadable(b, 5) && RfReadable(c, 5)
    requires b[1] == c[1] == 0x14 && b[2] == c[2] && b[3] == c[3] && b[4] == c[4]
    ensures ReadRf(b, 5) == ReadRf(c, 5)
  {}

  lemma RfLineReads(h: nat, u: int, f: int)
    requires h < 16 && -1 <= u < 16 && RfFrameFor(h, u, f).Some?
    ensures ReadRf(BufferOf(RfFrameFor(h, u, f).value), 6)
         == if f == FUNC_ON || f == FUNC_OFF then OnOff(h, u, f == FUNC_OFF) else DimBright(h, f == FUNC_BRIGHT)
  {
    if f == FUNC_ON || f == FUNC_OFF {
      OnOffRoundTrip(h, u, f == FUNC_OFF);
    } else {
      DimBrightRoundTrip(h, u, f == FUNC_BRIGHT);
    }
  }

  lemma SecLineReads(rf8: bool, addr: nat, key: byte)
    ensures ReadRf(BufferOf(SecFrame(rf8, addr, key)), |SecFrame(rf8, addr, key)|)
         == if rf8 then Security8(LowByte(addr), key)
            else if Ones(addr % 0x1_0000) % 2 == 1 then BadParity
            else Security24(LowByte(addr / 0x1_0000), LowByte(addr / 0x100), LowByte(addr), key)
  {
    if rf8 { Sec8RoundTrip(addr, key); } else { Sec24RoundTrip(addr, key); }
  }

  lemma CamLineReads(h: nat, i: nat)
    requires h < 16 && i < CAM_KEYS && CamKey(i).Some?
    ensures ReadRf(BufferOf(RfCam(h, CamCode(i))), 5) == Camera(h, CamCode(i))
  {
    CamCodeIndex(i);
    CamRoundTrip(h, CamCode(i));
    FifthByteUnread(BufferOf(RfCam(h, CamCode(i))), RfCam(h, CamCode(i)) + [0]);
  }

  /** For every radio line with a frame: the local echo, and the frame received by any controller, mean what the
      words say, whatever bytes lie behind it in memory. */
  lemma RadioLineMeaning(cmd: Command, ts: seq<string>, after: Frame)
    requires IsRadio(cmd) && RadioFrame(cmd, ts).Some? && |after| >= 2
    ensures var frame := RadioFrame(cmd, ts).value;
      && RfReadable(Received(frame) + after, |frame|)
      && ReportIn(BufferOf(frame), |frame|) == Intended(cmd, ts)
      && ReportIn(Received(frame) + after, |frame|) == Intended(cmd, ts)
  {
    OnAir(RadioFrame(cmd, ts).value, after);
    var (h, u) := ParseAddr(Arg(ts, 1));
    match cmd
    case RF => RfLineReads(h, u, ParseFunc(Arg(ts, 2)));
    case RFSEC =>
      var (rf8, addr) := ParseRfAddr(ts[1]);
      SecLineReads(rf8, addr, FindSec(rf8, ts[2], 0).value);
    case RFCAM => CamLineReads(h, FindCam(ts[2], 0));
  }

  lemma TxRfIs(cm19a: bool, st: St, frame: Frame, r: RfReport, clk: Clock)
    requires 5 <= |frame| <= 8 && frame[1] != 0x5D && |st.dups| == Dup.SLOTS
    requires ReportIn(BufferOf(frame), |frame|) == r
    ensures InRange(r)
    ensures var e := if Meaningful(r) then Offer(cm19a, st, frame, r, clk) else Nothing(st);
      TxRf(cm19a, st, frame, clk) == Effect(e.st, e.writes + [Wire(cm19a, frame)])
  {
    FrameInBuffer(frame);
  }

  lemma OfferSecurity24(cm19a: bool, st: St, frame: Frame, addr: nat, key: byte, clk: Clock)
    requires frame != [] && |st.dups| == Dup.SLOTS
    ensures var (suppressed, slots) := Dup.Filter(st.dups, frame, clk);
      Offer(cm19a, st, frame, Security24(LowByte(addr / 0x1_0000), LowByte(addr / 0x100), LowByte(addr), key), clk) ==
        if suppressed then Nothing(st.(dups := slots))
        else Effect(st.(dups := slots, sensors :=
                        Sensors.Update(st.sensors, addr % 0x100_0000, key, false, clk.seconds)),
                    Repeats(cm19a, st, frame))
  {
    AddressBytes(addr);
  }

  /** A long security address is recorded modulo 2^24, and only when its low 16 bits have even parity; the frame is
      transmitted either way. */
  lemma LongSecurityFrame(cm19a: bool, st: St, addr: nat, key: byte, clk: Clock)
    requires |st.dups| == Dup.SLOTS
    ensures var frame := RfSec24(addr, key);
      var (suppressed, slots) := Dup.Filter(st.dups, frame, clk);
      TxRf(cm19a, st, frame, clk) ==
        if Ones(addr % 0x1_0000) % 2 == 1 then Effect(st, [Wire(cm19a, frame)])
        else if suppressed then Effect(st.(dups := slots), [Wire(cm19a, frame)])
        else Effect(st.(dups := slots, sensors :=
                        Sensors.Update(st.sensors, addr % 0x100_0000, key, false, clk.seconds)),
                    Repeats(cm19a, st, frame) + [Wire(cm19a, frame)])
  {
    hide Offer, TxRf, HandleRf, ReadRf, ReportIn, Sensors.Update, Dup.Filter, LowByte, Ones, Repeats;
    var frame := RfSec24(addr, key);
    Sec24RoundTrip(addr, key);
    OnAir(frame, [0, 0]);
    TxRfIs(cm19a, st, frame, ReadRf(frame, 8), clk);
    OfferSecurity24(cm19a, st, frame, addr, key, clk);
    assert [] + [Wire(cm19a, frame)] == [Wire(cm19a, frame)];
  }

  lemma FrameInBuffer(frame: Frame)
    requires 5 <= |frame| <= 8 && frame[1] != 0x5D
    ensures FrameIn(BufferOf(frame), |frame|) == frame
  {
    assert BufferOf(frame)[0..][..|frame| - 0] == frame;
  }

  lemma SkipsExtraBytes(k: nat, buf: Frame, len: nat)
    requires len + 2 <= |buf| && buf[0] == 0x5D
    ensures FrameIn(Repeat(0x5D, k) + buf, k + len) == FrameIn(buf, len)
    ensures ReportIn(Repeat(0x5D, k) + buf, k + len) == ReportIn(buf, len)
  {
    ExtraBytesSkipped(k, buf, len);
  }

  /** Any number of extra leading 0x5D bytes changes nothing, in any state. */
  lemma ExtraBytesHarmless(cm19a: bool, st: St, k: nat, buf: Frame, len: nat, clk: Clock)
    requires len + 2 <= |buf| && buf[0] == 0x5D && |st.dups| == Dup.SLOTS
    ensures HandleRf(cm19a, st, Repeat(0x5D, k) + buf, k + len, clk) == HandleRf(cm19a, st, buf, len, clk)
  {
    SkipsExtraBytes(k, buf, len);
  }

  // ----- The filter loses an opposite command -----

  /** A radio On or Off as received, with its memory. */
  function Press(h: nat, u: nat, off: bool): Frame
    requires h < 16 && u < 16
  {
    Received(RfOnOff(h, u, off)) + [0, 0]
  }

  lemma PressReads(h: nat, u: nat, off: bool)
    requires h < 16 && u < 16
    ensures ReportIn(Press(h, u, off), 6) == OnOff(h, u, off)
    ensures FrameIn(Press(h, u, off), 6) == Received(RfOnOff(h, u, off))
  {
    OnAir(RfOnOff(h, u, off), [0, 0]);
    OnOffRoundTrip(h, u, off);
    assert Press(h, u, off)[1] == 0x20;
    assert Press(h, u, off)[0..][..6 - 0] == Received(RfOnOff(h, u, off));
  }

  lemma PressesReadable(h: nat, u: nat)
    requires h < 16 && u < 16
    ensures RfReadable(Press(h, u, false), 6) && RfReadable(Press(h, u, true), 6)
  {}

  /** The state after a press is heard. */
  function AfterPress(cm19a: bool, st: St, h: nat, u: nat, off: bool, clk: Clock): (st': St)
    requires h < 16 && u < 16 && |st.dups| == Dup.SLOTS
    ensures |st'.dups| == Dup.SLOTS
  {
    PressesReadable(h, u);
    HandleRf(cm19a, st, Press(h, u, off), 6, clk).st
  }

  /** The events of a press: once as heard, and once more when it is bridged to the power line. */
  function PressEvents(bridged: bool, h: nat, u: nat, off: bool): seq<Event> {
    [Address(h, u), Function(h, !off)] + if bridged then [Address(h, u), Function(h, !off)] else []
  }

  lemma PressEffect(cm19a: bool, st: St, h: nat, u: nat, off: bool, clk: Clock)
    requires h < 16 && u < 16 && |st.dups| == Dup.SLOTS
    ensures var (suppressed, slots) := Dup.Filter(st.dups, Received(RfOnOff(h, u, off)), clk);
      AfterPress(cm19a, st, h, u, off, clk) ==
        if suppressed then st.(dups := slots)
        else st.(dups := slots, history := st.history + PressEvents(Bridged(cm19a, st, h), h, u, off))
  {
    hide Offer, Press, PressEvents, FrameIn, ReportIn, Received;
    PressesReadable(h, u);
    assert RfReadable(Press(h, u, off), 6);
    PressReads(h, u, off);
    OfferOnOff(cm19a, st, Received(RfOnOff(h, u, off)), h, u, off, clk);
  }

  lemma OfferOnOff(cm19a: bool, st: St, frame: Frame, h: nat, u: nat, off: bool, clk: Clock)
    requires h < 16 && u < 16 && frame != [] && |st.dups| == Dup.SLOTS
    ensures var (suppressed, slots) := Dup.Filter(st.dups, frame, clk);
      Offer(cm19a, st, frame, OnOff(h, u, off), clk).st ==
        if suppressed then st.(dups := slots)
        else st.(dups := slots, history := st.history + PressEvents(Bridged(cm19a, st, h), h, u, off))
  {
    hide Obey, PressEvents, Dup.Filter, HouseBit;
    ObeyOnOff(cm19a, st.(dups := Dup.Filter(st.dups, frame, clk).1), frame, h, u, off, clk);
  }

  lemma ObeyOnOff(cm19a: bool, st: St, frame: Frame, h: nat, u: nat, off: bool, clk: Clock)
    requires h < 16 && u < 16 && frame != [] && |st.dups| == Dup.SLOTS
    ensures Obey(cm19a, st, frame, OnOff(h, u, off), clk).st
         == st.(history := st.history + PressEvents(Bridged(cm19a, st, h), h, u, off))
  {
    if Bridged(cm19a, st, h) {
      ObeyBridged(st, frame, h, u, off, clk);
      assert PressEvents(true, h, u, off) == [Address(h, u), Function(h, !off), Address(h, u), Function(h, !off)];
    } else {
      ObeyAlone(cm19a, st, frame, h, u, off, clk);
      assert PressEvents(false, h, u, off) == [Address(h, u), Function(h, !off)];
    }
  }

  lemma PressesDiffer(h: nat, u: nat, off: bool, u': nat, off': bool)
    requires h < 16 && u < 16 && u' < 16 && (u != u' || off != off')
    ensures Received(RfOnOff(h, u, off)) != Received(RfOnOff(h, u', off'))
  {
    PressReads(h, u, off);
    PressReads(h, u', off');
    assert Press(h, u, off) != Press(h, u', off');
  }

  // ----- Answers of the filter to two frames in turn -----

  /** The filter knows what an unbounded filter would know, neither frame is within its 650 ms when it comes, and there
      is room for both. */
  ghost predicate ReadyFor(dups: seq<Dup.Slot>, m: map<Frame, nat>, t: nat, f: Frame, g: Frame, c1: Clock, c2: Clock) {
    && Dup.Agree(dups, m, t) && t <= c1.now
    && f != g && f != [] && g != []
    && (f in m ==> m[f] < c1.now) && (g in m ==> m[g] < c2.now)
    && |Dup.Live(m, c1.now)| <= 14
  }

  /** Of the frames f, g, f the first two pass, and the third passes iff it comes more than 650 ms after the first. */
  lemma ThreeAnswers(dups: seq<Dup.Slot>, m: map<Frame, nat>, t: nat, f: Frame, g: Frame, c1: Clock, c2: Clock, c3: Clock)
    requires ReadyFor(dups, m, t, f, g, c1, c2)
    requires c1.now <= c1.later <= c2.now <= c2.later <= c3.now <= c3.later
    ensures var (a1, d1) := Dup.Filter(dups, f, c1);
      var (a2, d2) := Dup.Filter(d1, g, c2);
      !a1 && !a2 && (Dup.Filter(d2, f, c3).0 <==> c3.now <= c1.later + 650)
  {
    hide Dup.Filter, Dup.Live;
    var m1 := m[f := c1.later + 650];
    var m2 := m1[g := c2.later + 650];
    FewLive(m, f, g, m1, c1.now, c1.now);
    Dup.AgreeStep(dups, m, t, f, c1);
    var d1 := Dup.Filter(dups, f, c1).1;
    FewLive(m, f, g, m2, c1.now, c2.now);
    Dup.AgreeStep(d1, m1, c1.now, g, c2);
    var d2 := Dup.Filter(d1, g, c2).1;
    FewLive(m, f, g, Dup.MapFilter(m2, f, c3).1, c1.now, c3.now);
    Dup.AgreeStep(d2, m2, c2.now, f, c3);
  }

  /** A map that differs only in f and g has at most two more live frames, now or later. */
  lemma FewLive(m: map<Frame, nat>, f: Frame, g: Frame, m': map<Frame, nat>, t: nat, now: nat)
    requires |Dup.Live(m, t)| <= 14 && t <= now
    requires forall k :: k in m' && k != f && k != g ==> k in m && m'[k] == m[k]
    ensures |Dup.Live(m', now)| <= Dup.SLOTS
  {
    assert |{f, g}| <= 2;
    TwoMore(Dup.Live(m, t), {f, g});
    Dup.SubsetSize(Dup.Live(m', now), Dup.Live(m, t) + {f, g});
  }

  lemma TwoMore(a: set<Frame>, b: set<Frame>)
    ensures |a + b| <= |a| + |b|
  {
    assert a + b == a + (b - a);
    Dup.SubsetSize(b - a, b);
  }

  /** On, Off, On of one unit. */
  function AfterThreePresses(cm19a: bool, st: St, h: nat, u: nat, c1: Clock, c2: Clock, c3: Clock): St
    requires h < 16 && u < 16 && |st.dups| == Dup.SLOTS
  {
    AfterPress(cm19a, AfterPress(cm19a, AfterPress(cm19a, st, h, u, false, c1), h, u, true, c2), h, u, false, c3)
  }

  /** The filter is not state-preserving. From every state that is ready for the two frames, on either controller and
      bridged or not: after On, Off, On the tracker shows the unit on iff the last press came more than 650 ms after
      the first; otherwise the last press is dropped as a duplicate. */
  lemma LastPressLost(cm19a: bool, st: St, m: map<Frame, nat>, t: nat, h: nat, u: nat, c1: Clock, c2: Clock, c3: Clock)
    requires st.Valid() && h < 16 && u < 16
    requires ReadyFor(st.dups, m, t, Received(RfOnOff(h, u, false)), Received(RfOnOff(h, u, true)), c1, c2)
    requires c1.now <= c1.later <= c2.now <= c2.later <= c3.now <= c3.later
    ensures ValidHistory(AfterThreePresses(cm19a, st, h, u, c1, c2, c3).history)
    ensures Shown(AfterThreePresses(cm19a, st, h, u, c1, c2, c3).history, h, u).0
         == if c3.now > c1.later + 650 then On else Off
  {
    hide AfterPress, Dup.Filter, ReadyFor, Shown, Received, PressEvents, Bridged, HouseBit;
    var f, g := Received(RfOnOff(h, u, false)), Received(RfOnOff(h, u, true));
    var s1 := AfterPress(cm19a, st, h, u, false, c1);
    var s2 := AfterPress(cm19a, s1, h, u, true, c2);
    ThreeAnswers(st.dups, m, t, f, g, c1, c2, c3);
    PressEffect(cm19a, st, h, u, false, c1);
    PressEffect(cm19a, s1, h, u, true, c2);
    PressEffect(cm19a, s2, h, u, false, c3);
    ShownAfterPress(st.history, Bridged(cm19a, st, h), h, u, false);
    ShownAfterPress(s1.history, Bridged(cm19a, s1, h), h, u, true);
    ShownAfterPress(s2.history, Bridged(cm19a, s2, h), h, u, false);
  }

  lemma ShownAfterPress(hist: seq<Event>, bridged: bool, h: nat, u: nat, off: bool)
    requires ValidHistory(hist) && h < 16 && u < 16
    ensures var hist' := hist + PressEvents(bridged, h, u, off);
      ValidHistory(hist') && Shown(hist', h, u).0 == StatusFor(!off)
  {
    var once := hist + [Address(h, u), Function(h, !off)];
    ShownAfterOnce(hist, h, u, off);
    ShownAfterOnce(once, h, u, off);
    assert hist + PressEvents(true, h, u, off) == once + [Address(h, u), Function(h, !off)];
    assert hist + PressEvents(false, h, u, off) == once;
  }

  lemma ShownAfterOnce(hist: seq<Event>, h: nat, u: nat, off: bool)
    requires ValidHistory(hist) && h < 16 && u < 16
    ensures var hist' := hist + [Address(h, u), Function(h, !off)];
      ValidHistory(hist') && Shown(hist', h, u).0 == StatusFor(!off)
  {
    RowsAfterAppend(hist, Address(h, u));
    RowsAfterAppend(hist + [Address(h, u)], Function(h, !off));
    assert hist + [Address(h, u)] + [Function(h, !off)] == hist + [Address(h, u), Function(h, !off)];
  }

  // ----- The filter gives up its newest entry -----

  /** The On frames of the sixteen units of house A. */
  function OnFrames(): (fs: seq<Frame>)
    ensures |fs| == 16 && forall u :: 0 <= u < 16 ==> fs[u] == Received(RfOnOff(0, u, false))
  {
    seq(16, u requires 0 <= u < 16 => Received(RfOnOff(0, u, false)))
  }

  /** In November 2004, at 2^40 ms: after the On frames of A1 to A16 and A1 once more, an Off frame takes the slot of A1,
      the newest entry, and A1 is accepted again 50 ms after it was accepted. */
  lemma NewestEntryLost()
    ensures var qs := Evict.Bursts(OnFrames(), 0x100_0000_0000);
      var g := Received(RfOnOff(0, 0, true));
      var slots := Dup.SlotsAfter(qs);
      && Dup.ValidRun(qs) && Evict.FullAt(slots, 0x100_0000_0000 + 700)
      && (forall k :: 0 < k < 16 ==> slots[k].expiry < slots[0].expiry)
      && Dup.EvictAmong(slots, 16) == 0
      && !Dup.Suppressed(qs, 16)
      && !Dup.Filter(Dup.Filter(slots, g, Evict.At(0x100_0000_0000 + 700)).1, OnFrames()[0],
                     Evict.At(0x100_0000_0000 + 701)).0
  {
    hide Dup.SlotsAfter, Dup.Filter, Dup.ValidRun;
    var fs := OnFrames();
    forall i, j | 0 <= i < j < 16
      ensures fs[i] != fs[j]
    {
      PressesDiffer(0, i, false, j, false);
    }
    forall i | 0 <= i < 16
      ensures fs[i] != Received(RfOnOff(0, 0, true))
    {
      PressesDiffer(0, i, false, 0, true);
    }
    Evict.LosesNewestOnRealClock(fs, Received(RfOnOff(0, 0, true)), 0x100_0000_0000);
  }
}
