/**
 What one command line or one received frame does to the gateway: processcommandline and cm15a_decode_rf as
 mutually recursive functions from state to state and list of frames submitted for transmission.
*/
module Commands {
  import opened Common
  import opened Text
  import opened Codes
  import opened Frames
  import opened DeviceState
  import Sensors
  import StatusRow
  import Dup = DupFilter

  /** The state commands act on. The device tracker is represented by the history of its events. */
  datatype St = St(history: seq<Event>, sensors: seq<Sensors.Sensor>, dups: seq<Dup.Slot>, rfToPl: bv16, rfToRf: nat)
  {
    ghost predicate Valid() {
      && ValidHistory(history)
      && Sensors.ValidTable(sensors)
      && Dup.ValidSlots(dups)
    }
  }

  /** The state after an input and the frames it submits, in order. */
  datatype Effect = Effect(st: St, writes: seq<Frame>)

  // ----- Parsing -----

  datatype Command = PL | RF | RFSEC | RFCAM | PT | RFTOPL | RFTORF | ST | GETSTATUS | GETSTATUSSEC | Policy | Other

  function CommandOf(word: string): Command {
    if word == "PL" then PL
    else if word == "RF" then RF
    else if word == "RFSEC" then RFSEC
    else if word == "RFCAM" then RFCAM
    else if word == "PT" then PT
    else if word == "RFTOPL" then RFTOPL
    else if word == "RFTORF" then RFTORF
    else if word == "ST" then ST
    else if word == "GETSTATUS" then GETSTATUS
    else if word == "GETSTATUSSEC" then GETSTATUSSEC
    else Other
  }

  function Arg(ts: seq<string>, i: nat): Option<string> { if i < |ts| then Some(ts[i]) else None }

  function CharAt(s: string, i: nat): char { if i < |s| then s[i] else '\0' }

  const NO_ADDRESS: (int, int) := (-1, -1)

  /** A device address: (house, unit), -1 for a part that is missing or malformed. */
  function ParseAddr(t: Option<string>): (r: (int, int))
    ensures -1 <= r.0 < 16 && -1 <= r.1 < 16 && (r.1 >= 0 ==> r.0 >= 0)
  {
    if t == None || |t.value| > 3 || !IsHouse(CharAt(t.value, 0)) then NO_ADDRESS
    else
      var h := HouseIndex(t.value[0]);
      var c1, c2 := CharAt(t.value, 1), CharAt(t.value, 2);
      if !IsDigit(c1) then (h, -1)
      else if !IsDigit(c2) then (h, DigitValue(c1) - 1)
      else
        var n := 10 * DigitValue(c1) + DigitValue(c2);
        if n > 16 then (h, -1) else (h, n - 1)
  }

  function ParseFunc(t: Option<string>): (f: int)
    ensures -1 <= f < FUNCS
  {
    if t == None then -1 else FindFunc(t.value, 0)
  }

  /** A decimal parameter, -1 when it is missing. */
  function ParseParam(t: Option<string>): int { if t == None then -1 else ToInt32(StrToNumber(t.value, 10)) }

  /** A missing parameter, and one given as -1, is replaced by a default. */
  function OrDefault(p: int, default: int): int { if p == -1 then default else p }

  predicate HasHexPrefix(p: string) { |p| >= 2 && p[0] == '0' && (p[1] == 'x' || p[1] == 'X') }

  /** A security address: whether it is an 8-bit one, and its value. */
  function ParseRfAddr(p: string): (bool, nat) {
    if HasHexPrefix(p) then (true, Wrap64(StrToNumber(p[2..], 16))) else (false, Wrap64(StrToNumber(p, 16)))
  }

  function HouseBit(h: nat): bv16
    requires h < 16
  {
    (1 as bv16) << h
  }

  /** The bits of the house letters in a word. */
  function LetterBits(w: string): bv16
    decreases |w|
  {
    if w == "" then 0
    else
      var c := w[|w| - 1];
      LetterBits(w[..|w| - 1]) | (if IsHouse(c) then HouseBit(HouseIndex(c)) else 0)
  }

  function HouseMask(t: Option<string>): bv16 {
    if t == None || t.value == "" then 0 else if t.value == "*" then 0xFFFF else LetterBits(t.value)
  }

  /** One hexadecimal word stored in an unsigned char. */
  function HexByte(t: string): byte { LowByte(StrToNumber(t, 16)) }

  /** The first n words, converted. */
  function Convert(f: string -> byte, ts: seq<string>, n: nat): Frame
    decreases n
  {
    if ts == [] || n == 0 then [] else [f(ts[0])] + Convert(f, ts[1..], n - 1)
  }

  /** At most eight hexadecimal bytes. */
  function HexBytes(ts: seq<string>): Frame { Convert(HexByte, ts, 8) }

  // ----- Power line -----

  /** The tracker events a decoded power-line frame causes. */
  function PlEvents(r: PlReport): seq<Event> {
    match r
    case PlUnit(h, u) => [Address(h, u)]
    case PlFunc(h, f) =>
      if f == 0 || f == 6 then [AllUnits(h, false)]
      else if f == 1 then [AllUnits(h, true)]
      else if f == 2 || f == 13 then [Function(h, true)]
      else if f == 3 || f == 14 then [Function(h, false)]
      else []
    case PlDim(_, _, _) => []
    case PlExt(h, u, _, data, _) => [ExtDim(h, u, data)]
    case PlNothing => []
  }

  function Hear(st: St, r: PlReport): St { st.(history := st.history + PlEvents(r)) }

  function Nothing(st: St): Effect { Effect(st, []) }

  function TxUnit(st: St, h: nat, u: nat): Effect
    requires h < 16 && u < 16
  {
    Effect(Hear(st, ReadPl(EchoUnit(h, u), 4)), [SentUnit(h, u)])
  }

  function TxFunc(st: St, h: nat, f: nat, param: int): Effect
    requires h < 16 && f < 16
  {
    if f == FUNC_DIM || f == FUNC_BRIGHT then
      Effect(Hear(st, ReadPl(EchoDim(h, f as byte, param), 5)), [SentDim(h, f as byte, param)])
    else
      Effect(Hear(st, ReadPl(EchoFunc(h, f as byte), 4)), [SentFunc(h, f as byte)])
  }

  function TxExt(st: St, h: nat, u: nat, command: int, subcmd: int, param: int): Effect
    requires h < 16 && u < 16
  {
    Effect(Hear(st, ReadPl(EchoExt(h, u, command, subcmd, param), 7)), [SentExt(h, u, command, subcmd, param)])
  }

  function TxUnitFunc(st: St, h: nat, u: nat, f: nat, param: int): Effect
    requires h < 16 && u < 16 && f < 16
  {
    var e := TxUnit(st, h, u);
    var e' := TxFunc(e.st, h, f, param);
    Effect(e'.st, e.writes + e'.writes)
  }

  /** A "PL" line, given its parsed house, unit and function and its next three words as numbers. */
  function DoPl(st: St, h: int, u: int, f: int, p3: int, p4: int, p5: int): Effect
    requires -1 <= h < 16 && -1 <= u < 16 && -1 <= f < FUNCS
  {
    if h < 0 then Nothing(st)
    else if u < 0 then
      if f < 0 || f == FUNC_EXTENDED_DIM then Nothing(st)
      else TxFunc(st, h, f, if f == FUNC_DIM || f == FUNC_BRIGHT then OrDefault(p3, 1) else 0)
    else if f < 0 then TxUnit(st, h, u)
    else if f == FUNC_EXTENDED_DIM then TxExt(st, h, u, 3, 1, OrDefault(p3, 1))
    else if f == FUNC_DIM || f == FUNC_BRIGHT then TxUnitFunc(st, h, u, f, OrDefault(p3, 1))
    else if f == FUNC_EXTENDED_CODE_1 then TxExt(st, h, u, OrDefault(p3, 0), OrDefault(p4, 0), OrDefault(p5, 0))
    else TxUnitFunc(st, h, u, f, 0)
  }

  function PlLine(st: St, ts: seq<string>): Effect {
    var (h, u) := ParseAddr(Arg(ts, 1));
    DoPl(st, h, u, ParseFunc(Arg(ts, 2)), ParseParam(Arg(ts, 3)), ParseParam(Arg(ts, 4)), ParseParam(Arg(ts, 5)))
  }

  // ----- Radio -----

  function SecFrame(rf8: bool, addr: nat, key: byte): Frame { if rf8 then RfSec8(addr, key) else RfSec24(addr, key) }

  predicate IsRadio(cmd: Command) { cmd == RF || cmd == RFSEC || cmd == RFCAM }

  /** The frame an RF command asks for. */
  function RfFrameFor(h: int, u: int, f: int): (r: Option<Frame>)
    requires -1 <= h < 16 && -1 <= u < 16
    ensures r.Some? ==> |r.value| == 6 && r.value[1] == 0x20
  {
    if h < 0 then None
    else if f == FUNC_ON || f == FUNC_OFF then if u < 0 then None else Some(RfOnOff(h, u, f == FUNC_OFF))
    else if f == FUNC_DIM || f == FUNC_BRIGHT then Some(RfDimBright(h, u, f == FUNC_BRIGHT))
    else None
  }

  /** The frame a radio line asks for, given its tokens. */
  function RadioFrame(cmd: Command, ts: seq<string>): (r: Option<Frame>)
    requires IsRadio(cmd)
    ensures r.Some? ==> 5 <= |r.value| <= 8 && r.value[1] != 0x5D && (|r.value| == 5 ==> r.value[1] == 0x14)
  {
    match cmd
    case RF =>
      var (h, u) := ParseAddr(Arg(ts, 1));
      RfFrameFor(h, u, ParseFunc(Arg(ts, 2)))
    case RFSEC =>
      if |ts| < 3 then None
      else
        var (rf8, addr) := ParseRfAddr(ts[1]);
        var key := FindSec(rf8, ts[2], 0);
        if key == None then None else Some(SecFrame(rf8, addr, key.value))
    case RFCAM =>
      var (h, _) := ParseAddr(Arg(ts, 1));
      if h < 0 || |ts| < 3 || FindCam(ts[2], 0) < 0 then None else Some(RfCam(h, CamCode(FindCam(ts[2], 0))))
  }

  /** The buffer the frame is built in: a camera frame takes five bytes of eight. */
  function BufferOf(frame: Frame): (buf: Frame)
    requires 5 <= |frame| <= 8 && frame[1] != 0x5D
    ensures RfReadable(buf, |frame|)
  {
    if |frame| == 5 then frame + [0, 0, 0] else frame
  }

  // ----- The recursive path -----

  /** The line the bridge prints and feeds back to the parser; without a unit for Dim and Bright. */
  function BridgeLine(h: nat, u: int, f: nat): string
    requires h < 16 && u < 16
  {
    "PL " + [HouseChar(h)] + (if u < 0 then "" else Decimal(u + 1)) + " " + FuncName(f)
  }

  function LineTokens(line: string): seq<string> { Tokens(Upper(line)) }

  function LineCommand(line: string): Command {
    if Upper(line) == "<POLICY-FILE-REQUEST/>" then Policy
    else if LineTokens(line) == [] then Other
    else CommandOf(LineTokens(line)[0])
  }

  function Wire(cm19a: bool, frame: Frame): Frame
    requires frame != []
  {
    if cm19a then frame[1..] else frame
  }

  /** The retransmission of a received radio frame. */
  function Repeats(cm19a: bool, st: St, frame: Frame): seq<Frame>
    requires frame != []
  {
    if st.rfToRf == 0 then [] else [Wire(cm19a, [0xEB] + frame[1..])]
  }

  predicate Bridged(cm19a: bool, st: St, h: nat)
    requires h < 16
  {
    !cm19a && st.rfToPl & HouseBit(h) != 0
  }

  /** The frame in a buffer once extra bytes are skipped. */
  function FrameIn(buf: Frame, len: nat): (f: Frame)
    requires RfReadable(buf, len)
    ensures |f| <= len
  {
    StaysReadable(buf, len);
    var k := ExtraBytes(buf, len);
    buf[k..][..len - k]
  }

  function ReportIn(buf: Frame, len: nat): (r: RfReport)
    requires RfReadable(buf, len)
    ensures InRange(r)
    ensures Meaningful(r) ==> 5 <= |FrameIn(buf, len)| <= 8
  {
    StaysReadable(buf, len);
    var k := ExtraBytes(buf, len);
    ReadRf(buf[k..], len - k)
  }

  /** cm15a_decode_rf on a frame held in a buffer. */
  function HandleRf(cm19a: bool, st: St, buf: Frame, len: nat, clk: Clock): (e: Effect)
    requires RfReadable(buf, len) && |st.dups| == Dup.SLOTS
    ensures |e.st.dups| == Dup.SLOTS
    decreases 1, 3
  {
    var r := ReportIn(buf, len);
    if Meaningful(r) then Offer(cm19a, st, FrameIn(buf, len), r, clk) else Nothing(st)
  }

  /** A frame that reads well passes the duplicate filter first. */
  function Offer(cm19a: bool, st: St, frame: Frame, r: RfReport, clk: Clock): (e: Effect)
    requires Meaningful(r) && InRange(r) && frame != [] && |st.dups| == Dup.SLOTS
    ensures |e.st.dups| == Dup.SLOTS
    decreases 1, 2
  {
    var (suppressed, slots) := Dup.Filter(st.dups, frame, clk);
    var st1 := st.(dups := slots);
    if suppressed then Nothing(st1) else Obey(cm19a, st1, frame, r, clk)
  }

  /** What an accepted frame does. */
  function Obey(cm19a: bool, st: St, frame: Frame, r: RfReport, clk: Clock): (e: Effect)
    requires Meaningful(r) && InRange(r) && frame != [] && |st.dups| == Dup.SLOTS
    ensures |e.st.dups| == Dup.SLOTS
    decreases 1, 1
  {
    var repeats := Repeats(cm19a, st, frame);
    match r
    case Camera(_, _) => Effect(st, repeats)
    case Security8(addr, key) =>
      Effect(st.(sensors := Sensors.Update(st.sensors, Sensors.Addr24(0, 0, addr), key, true, clk.seconds)), repeats)
    case Security24(a0, a1, a2, key) =>
      Effect(st.(sensors := Sensors.Update(st.sensors, Sensors.Addr24(a0, a1, a2), key, false, clk.seconds)), repeats)
    case DimBright(h, bright) =>
      RepeatBridge(cm19a, st, frame, h, -1, if bright then FUNC_BRIGHT else FUNC_DIM, clk)
    case OnOff(h, u, off) =>
      RepeatBridge(cm19a, st.(history := st.history + [Address(h, u), Function(h, !off)]), frame, h, u,
                   if off then FUNC_OFF else FUNC_ON, clk)
  }

  /** Retransmission by radio if enabled, then over the power line if the house is bridged. */
  function RepeatBridge(cm19a: bool, st: St, frame: Frame, h: nat, u: int, f: nat, clk: Clock): (e: Effect)
    requires frame != [] && |st.dups| == Dup.SLOTS && h < 16 && -1 <= u < 16 && 2 <= f <= 5
    ensures |e.st.dups| == Dup.SLOTS
    decreases 1, 0
  {
    var repeats := Repeats(cm19a, st, frame);
    if Bridged(cm19a, st, h) then
      BridgeLineIsPl(h, u, f);
      var p := Process(cm19a, st, BridgeLine(h, u, f), clk);
      Effect(p.st, repeats + p.writes)
    else Effect(st, repeats)
  }

  /** Echo a radio frame to the local decoder, then transmit it. */
  function TxRf(cm19a: bool, st: St, frame: Frame, clk: Clock): (e: Effect)
    requires 5 <= |frame| <= 8 && frame[1] != 0x5D && |st.dups| == Dup.SLOTS
    ensures |e.st.dups| == Dup.SLOTS
    decreases 1, 4
  {
    var echo := HandleRf(cm19a, st, BufferOf(frame), |frame|, clk);
    Effect(echo.st, echo.writes + [Wire(cm19a, frame)])
  }

  /** processcommandline, given the command and the tokens of its line. */
  function Run(cm19a: bool, st: St, cmd: Command, ts: seq<string>, clk: Clock): (e: Effect)
    requires |st.dups| == Dup.SLOTS
    ensures |e.st.dups| == Dup.SLOTS
    decreases if cmd == PL then 0 else 2, 0
  {
    match cmd
    case PL => PlLine(st, ts)
    case RFTOPL => Nothing(st.(rfToPl := HouseMask(Arg(ts, 1))))
    case RFTORF =>
      if Arg(ts, 1) == None then Nothing(st)
      else Nothing(st.(rfToRf := Wrap64(StrToNumber(ts[1], 10)) % 0x1_0000))
    case ST =>
      if Arg(ts, 1) == Some("0") then Nothing(st.(history := st.history + [Reset], sensors := []))
      else Nothing(st.(sensors := Sensors.Sorted(st.sensors)))
    case PT =>
      if |ts| <= 1 then Nothing(st) else Effect(st, [HexBytes(ts[1..])])
    case _ =>
      if IsRadio(cmd) && RadioFrame(cmd, ts).Some? then TxRf(cm19a, st, RadioFrame(cmd, ts).value, clk)
      else Nothing(st)
  }

  function Process(cm19a: bool, st: St, line: string, clk: Clock): (e: Effect)
    requires |st.dups| == Dup.SLOTS
    ensures |e.st.dups| == Dup.SLOTS
    decreases if LineCommand(line) == PL then 0 else 2, 1
  {
    Run(cm19a, st, LineCommand(line), LineTokens(line), clk)
  }

  // ----- Queries -----

  /** The answer sent to the client that asked, if any. */
  datatype Reply = NoReply | IsOn(on: bool) | Level(level: byte) | MinusOne | Rows(rows: seq<string>)

  function UnitAnswer(hist: seq<Event>, h: nat, u: nat, arg: Option<string>): Reply
    requires ValidHistory(hist) && h < 16 && u < 16
  {
    if arg == None then IsOn(Shown(hist, h, u).0 == On)
    else if arg.value == "XDIM" then Level(Shown(hist, h, u).1)
    else MinusOne
  }

  function Answer(st: St, cmd: Command, ts: seq<string>): Reply
    requires ValidHistory(st.history)
  {
    match cmd
    case GETSTATUS =>
      var (h, u) := ParseAddr(Arg(ts, 1));
      if h < 0 || u < 0 then NoReply else UnitAnswer(st.history, h, u, Arg(ts, 2))
    case GETSTATUSSEC =>
      if Arg(ts, 1) == None then NoReply
      else
        var (rf8, addr) := ParseRfAddr(ts[1]);
        IsOn(Sensors.MapStatus(Sensors.Table(st.sensors), rf8, addr) == 1)
    case ST => if Arg(ts, 1) == Some("0") then NoReply else Rows(StatusRow.DeviceRows(st.history))
    case _ => NoReply
  }

  // ----- The printed line parses -----

  function AddrWord(h: nat, u: int): string
    requires h < 16 && u < 16
  {
    [HouseChar(h)] + if u < 0 then "" else Decimal(u + 1)
  }

  lemma DecimalShort(n: nat)
    requires n <= 16
    ensures Decimal(n) == if n < 10 then [('0' as int + n) as char] else "1" + [('0' as int + n - 10) as char]
  {
    if n >= 10 { assert n / 10 == 1 && n % 10 == n - 10; }
  }

  lemma AddrWordUpper(h: nat, u: int)
    requires h < 16 && -1 <= u < 16
    ensures IsWord(AddrWord(h, u)) && Upper(AddrWord(h, u)) == AddrWord(h, u)
  {
    if u >= 0 { DecimalShort(u + 1); }
  }

  /** A printed device address parses back to itself. */
  lemma AddrRoundTrip(h: nat, u: int)
    requires h < 16 && -1 <= u < 16
    ensures ParseAddr(Some(AddrWord(h, u))) == (h as int, u)
  {
    if u >= 0 { DecimalShort(u + 1); }
  }

  lemma ThreeTokens(a: string, b: string, c: string)
    requires IsWord(a) && IsWord(b) && IsWord(c)
    ensures Tokens(a + " " + (b + " " + c)) == [a, b, c]
  {
    TokensCons(a, b + " " + c);
    TokensCons(b, c);
    TokensOfWord(c);
  }

  lemma BridgeLineShape(h: nat, u: int, f: nat)
    requires h < 16 && -1 <= u < 16
    ensures BridgeLine(h, u, f) == "PL" + " " + (AddrWord(h, u) + " " + FuncName(f))
  {
    hide FuncName, HouseChar, Decimal;
    var w, n := AddrWord(h, u), FuncName(f);
    assert BridgeLine(h, u, f) == "PL " + w + " " + n;
    assert "PL " + w + " " + n == "PL" + " " + (w + " " + n);
  }

  lemma BridgeLineTokens(h: nat, u: int, f: nat)
    requires h < 16 && -1 <= u < 16 && 2 <= f <= 5
    ensures LineTokens(BridgeLine(h, u, f)) == ["PL", AddrWord(h, u), Upper(FuncName(f))]
  {
    var w, n := AddrWord(h, u), FuncName(f);
    BridgeLineShape(h, u, f);
    AddrWordUpper(h, u);
    PrintedFuncParses(f);
    ThreeTokens("PL", w, n);
    UpperTokens(BridgeLine(h, u, f));
    UpperThree(w, n);
  }

  lemma UpperThree(w: string, n: string)
    ensures UpperAll(["PL", w, n]) == ["PL", Upper(w), Upper(n)]
  {
    assert Upper("PL") == "PL";
  }

  /** Whatever the decoder prints is a PL command, so the recursion ends. */
  lemma BridgeLineIsPl(h: nat, u: int, f: nat)
    requires h < 16 && -1 <= u < 16 && 2 <= f <= 5
    ensures LineCommand(BridgeLine(h, u, f)) == PL
  {
    BridgeLineTokens(h, u, f);
    assert Upper(BridgeLine(h, u, f))[0] == 'P';
  }
}
