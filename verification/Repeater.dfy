/** Radio out: what the repeater and the radio commands submit, byte for byte, and which received frames are refused. */
module Repeater {
  import opened Common
  import opened Text
  import opened Codes
  import opened Frames
  import opened DeviceState
  import opened Commands
  import opened CommandProperties
  import opened Words
  import opened System
  import Names
  import Sensors
  import Dup = DupFilter

  // ----- Repetition -----

  /** The frame in the buffer reads well and is no duplicate. */
  ghost predicate Accepted(st: St, buf: Frame, len: nat, clk: Clock)
    requires RfReadable(buf, len) && |st.dups| == Dup.SLOTS
  {
    Meaningful(ReportIn(buf, len)) && !Dup.Filter(st.dups, FrameIn(buf, len), clk).0
  }

  /** The writes begin with the repetition of the frame, if repetition is on: on a CM15A with EB for its first byte, on a
      CM19A without its first byte. Behind it come at most two frames, all for the power line. */
  ghost predicate RepeatedFirst(cm19a: bool, st: St, frame: Frame, writes: seq<Frame>)
    requires frame != []
  {
    var repeated := if st.rfToRf == 0 then [] else [if cm19a then frame[1..] else [0xEB] + frame[1..]];
    && repeated <= writes
    && |writes| <= |repeated| + (if cm19a then 0 else 2)
    && forall i :: |repeated| <= i < |writes| ==> ReadSent(writes[i]) != PlNothing
  }

  lemma BridgedFrames(cm19a: bool, st: St, h: nat, u: int, f: nat, clk: Clock)
    requires h < 16 && -1 <= u < 16 && 2 <= f <= 5 && |st.dups| == Dup.SLOTS
    ensures var ws := Process(cm19a, st, BridgeLine(h, u, f), clk).writes;
      |ws| <= 2 && forall i :: 0 <= i < |ws| ==> ReadSent(ws[i]) != PlNothing
  {
    hide Process, BridgeLine, LineTokens, LineCommand, PlLine, ReadSent, AskedByWords;
    var ts := LineTokens(BridgeLine(h, u, f));
    BridgeLineIsPl(h, u, f);
    BridgedWrites(cm19a, st, h, u, f, clk);
    PlWordsMeaning(st, ts);
    PlProcess(cm19a, st, BridgeLine(h, u, f), clk);
    var ws := PlLine(st, ts).writes;
    forall i | 0 <= i < |ws|
      ensures ReadSent(ws[i]) != PlNothing
    {
      AskedSays(ts, i);
    }
  }

  lemma PlProcess(cm19a: bool, st: St, line: string, clk: Clock)
    requires LineCommand(line) == PL && |st.dups| == Dup.SLOTS
    ensures Process(cm19a, st, line, clk) == PlLine(st, LineTokens(line))
  {}

  lemma AskedSays(ts: seq<string>, i: nat)
    requires i < |AskedByWords(ts)|
    ensures AskedByWords(ts)[i] != PlNothing
  {}

  lemma BridgeRepeats(cm19a: bool, st: St, frame: Frame, h: nat, u: int, f: nat, clk: Clock)
    requires h < 16 && -1 <= u < 16 && 2 <= f <= 5 && frame != [] && |st.dups| == Dup.SLOTS
    ensures RepeatedFirst(cm19a, st, frame, RepeatBridge(cm19a, st, frame, h, u, f, clk).writes)
  {
    hide Process, BridgeLine, ReadSent, HouseBit;
    BridgedFrames(cm19a, st, h, u, f, clk);
  }

  lemma ObeyRepeats(cm19a: bool, st: St, frame: Frame, r: RfReport, clk: Clock)
    requires Meaningful(r) && InRange(r) && frame != [] && |st.dups| == Dup.SLOTS
    ensures RepeatedFirst(cm19a, st, frame, Obey(cm19a, st, frame, r, clk).writes)
  {
    hide RepeatBridge, ReadSent, Sensors.Update;
    if r.DimBright? {
      BridgeRepeats(cm19a, st, frame, r.house, -1, if r.bright then FUNC_BRIGHT else FUNC_DIM, clk);
    } else if r.OnOff? {
      var heard := st.(history := st.history + [Address(r.house, r.unit), Function(r.house, !r.off)]);
      BridgeRepeats(cm19a, heard, frame, r.house, r.unit, if r.off then FUNC_OFF else FUNC_ON, clk);
    }
  }

  /** In every state an accepted frame is repeated first, if repetition is on, and any other frame submits nothing. */
  lemma FrameRepeated(cm19a: bool, st: St, buf: Frame, len: nat, clk: Clock)
    requires RfReadable(buf, len) && |st.dups| == Dup.SLOTS
    ensures var writes := HandleRf(cm19a, st, buf, len, clk).writes;
      if Accepted(st, buf, len, clk)
      then FrameIn(buf, len) != [] && RepeatedFirst(cm19a, st, FrameIn(buf, len), writes)
      else writes == []
  {
    hide Obey, FrameIn, ReportIn, Dup.Filter, ReadSent;
    var frame, r := FrameIn(buf, len), ReportIn(buf, len);
    if Meaningful(r) {
      ObeyRepeats(cm19a, st.(dups := Dup.Filter(st.dups, frame, clk).1), frame, r, clk);
    }
  }

  /** The decoder's buffer has no extra 5D byte behind the first. */
  lemma WholeFrame(buf: Frame, len: nat)
    requires RfReadable(buf, len) && len >= 2 && buf[1] != 0x5D
    ensures FrameIn(buf, len) == buf[..len]
  {
    assert buf[0..] == buf;
  }

  /** A radio packet as it comes from the controller: from a CM15A behind 5D. */
  predicate RadioPacket(cm19a: bool, p: Frame) { 4 <= |p| <= 8 && (if cm19a then p[0] != 0x5D else p[0] == 0x5D != p[1]) }

  /** An accepted packet of a CM15A is sent again with EB for 5D, and one of a CM19A as it is. */
  lemma PacketRepeated(cm19a: bool, st: St, p: Frame, after: Frame, clk: Clock)
    requires |st.dups| == Dup.SLOTS && RadioPacket(cm19a, p) && |after| >= 2 && st.rfToRf != 0
    requires Accepted(st, DecodeBuffer(cm19a, p, after), DecodeLength(cm19a, p), clk)
    ensures var writes := Decode(cm19a, st, p, after, clk).writes;
      writes != [] && writes[0] == if cm19a then p else [0xEB] + p[1..]
  {
    hide HandleRf, ReadSent, Accepted, FrameIn;
    var buf, len := DecodeBuffer(cm19a, p, after), DecodeLength(cm19a, p);
    assert buf[1] == if cm19a then p[0] else p[1];
    WholeFrame(buf, len);
    FrameRepeated(cm19a, st, buf, len, clk);
    assert buf[..len] == if cm19a then [0x5D] + p else p;
    assert ([0x5D] + p)[1..] == p;
  }

  // ----- The frames of radio commands -----

  /** Sums of single bits. */
  lemma UnitBitsSum(u: nat, off: bool)
    requires u < 16
    ensures RfUnitBits(u, off) as nat == (if off then 0x20 else 0) + 0x40 * (u / 4 % 2) + 0x08 * (u / 2 % 2) + 0x10 * (u % 2)
  {
    if u < 8 { LowUnits(u, off); } else { HighUnits(u, off); }
  }

  lemma LowUnits(u: nat, off: bool)
    requires u < 8
    ensures RfUnitBits(u, off) as nat == (if off then 0x20 else 0) + 0x40 * (u / 4 % 2) + 0x08 * (u / 2 % 2) + 0x10 * (u % 2)
  {
    assert u == 0 || u == 1 || u == 2 || u == 3 || u == 4 || u == 5 || u == 6 || u == 7;
  }

  lemma HighUnits(u: nat, off: bool)
    requires 8 <= u < 16
    ensures RfUnitBits(u, off) as nat == (if off then 0x20 else 0) + 0x40 * (u / 4 % 2) + 0x08 * (u / 2 % 2) + 0x10 * (u % 2)
  {
    assert u == 8 || u == 9 || u == 10 || u == 11 || u == 12 || u == 13 || u == 14 || u == 15;
  }

  /** The house byte: the house's radio code in the high nibble, and 4 for units 9 to 16. */
  lemma HouseByteSum(h: nat, u: nat)
    requires h < 16 && u < 16
    ensures RfHouseByte(h, u) == (X10HouseCodeRf(h) << 4) | (if u < 8 then 0x00 else 0x04)
  {
    hide X10HouseCodeRf;
    RfHouseByteIs(h, u);
    UnitEight(u);
  }

  lemma UnitEight(u: nat)
    requires u < 16
    ensures (u as byte & 0x08) >> 1 == if u < 8 then 0x00 else 0x04
  {
    if u < 8 { LowUnits(u, false); } else { HighUnits(u, false); }
  }

  lemma NoUnitByte(h: nat)
    requires h < 16
    ensures RfHouseByte(h, -1) == (X10HouseCodeRf(h) << 4) | 0x04
  {
    hide LowByte, X10HouseCodeRf;
    LowByteValue(-1);
    AllOnes(LowByte(-1));
  }

  lemma AllOnes(b: byte)
    requires b as int == 255
    ensures (b & 0x08) >> 1 == 0x04
  {}

  /** An On or Off frame, byte for byte. */
  lemma OnOffBytes(h: nat, u: nat, off: bool)
    requires h < 16 && u < 16
    ensures var f := RfOnOff(h, u, off);
      && |f| == 6 && f[0] == 0xEB && f[1] == 0x20 && f[3] == f[2] ^ 0xFF && f[5] == f[4] ^ 0xFF
      && f[2] == (X10HouseCodeRf(h) << 4) | (if u < 8 then 0x00 else 0x04)
      && f[4] as nat == (if off then 0x20 else 0) + 0x40 * (u / 4 % 2) + 0x08 * (u / 2 % 2) + 0x10 * (u % 2)
  {
    hide X10HouseCodeRf, RfHouseByte, RfUnitBits;
    HouseByteSum(h, u);
    UnitBitsSum(u, off);
    Complement(RfHouseByte(h, u));
    Complement(RfUnitBits(u, off));
  }

  lemma Complement(b: byte)
    ensures !b == b ^ 0xFF
  {}

  /** A Dim or Bright frame without a unit, byte for byte. */
  lemma DimBrightBytes(h: nat, bright: bool)
    requires h < 16
    ensures var f := RfDimBright(h, -1, bright);
      && |f| == 6 && f[0] == 0xEB && f[1] == 0x20 && f[3] == f[2] ^ 0xFF && f[5] == f[4] ^ 0xFF
      && f[2] == (X10HouseCodeRf(h) << 4) | 0x04 && f[4] == if bright then 0x88 else 0x98
  {
    hide X10HouseCodeRf, RfHouseByte;
    NoUnitByte(h);
    Complement(RfHouseByte(h, -1));
    Complement(if bright then 0x88 else 0x98);
  }

  /** The security and camera frames, byte for byte. */
  lemma SecurityBytes(addr: nat, key: byte)
    ensures var f := RfSec8(addr, key);
      |f| == 6 && f[0] == 0xEB && f[1] == 0x20 && f[3] == f[2] ^ 0x0F && f[4] == key && f[5] == key ^ 0xFF
    ensures var f := RfSec24(addr, key);
      |f| == 8 && f[0] == 0xEB && f[1] == 0x29 && f[3] == f[2] ^ 0x0F && f[4] == key && f[5] == key ^ 0xFF
  {
    hide LowByte;
    Complement(key);
  }

  lemma CameraBytes(h: nat, key: byte)
    requires h < 16
    ensures var f := RfCam(h, key);
      && |f| == 5 && f[0] == 0xEB && f[1] == 0x14 && f[3] == key && f[4] == X10HouseCodeRf(h) << 4
      && f[2] == f[4] + key - 0x2B
  {
    hide X10HouseCodeRf;
    Rearrange(X10HouseCodeRf(h) << 4, key);
  }

  lemma Rearrange(a: byte, key: byte)
    ensures a + (key - 0x2B) == a + key - 0x2B
  {}

  lemma LeadByte(cmd: Command, ts: seq<string>)
    requires IsRadio(cmd) && RadioFrame(cmd, ts).Some?
    ensures RadioFrame(cmd, ts).value[0] == 0xEB
  {
    hide RfHouseByte, RfUnitBits, LowByte, X10HouseCodeRf, ParseAddr, ParseFunc, ParseRfAddr, FindSec, FindCam, CamCode;
  }

  /** The command of a line that begins with a radio word. */
  function RadioCommand(line: string): Command {
    if Says(line, "RF") then RF else if Says(line, "RFSEC") then RFSEC else RFCAM
  }

  predicate SaysRadio(line: string) { Says(line, "RF") || Says(line, "RFSEC") || Says(line, "RFCAM") }

  lemma RadioProcess(cm19a: bool, st: St, cmd: Command, line: string, clk: Clock)
    requires LineCommand(line) == cmd && IsRadio(cmd) && |st.dups| == Dup.SLOTS
    ensures Process(cm19a, st, line, clk) ==
      if RadioFrame(cmd, LineTokens(line)).Some? then TxRf(cm19a, st, RadioFrame(cmd, LineTokens(line)).value, clk)
      else Effect(st, [])
  {
    hide TxRf, RadioFrame, LineTokens, LineCommand;
  }

  /** A radio line whose words make a frame submits, last, that frame: whole and led by EB on a CM15A, without EB on a
      CM19A. Before it come what its own frame causes when the local decoder hears it, repetition first. Any other radio
      line does nothing. */
  lemma RadioLineSubmits(cm19a: bool, st: St, line: string, clk: Clock)
    requires SaysRadio(line) && |st.dups| == Dup.SLOTS
    ensures var e, made := Process(cm19a, st, line, clk), RadioFrame(RadioCommand(line), LineTokens(line));
      if made == None then e == Effect(st, [])
      else
        var f := made.value;
        var heard := HandleRf(cm19a, st, BufferOf(f), |f|, clk);
        && f[0] == 0xEB
        && e == Effect(heard.st, heard.writes + [if cm19a then f[1..] else f])
        && (Accepted(st, BufferOf(f), |f|, clk) ==>
             FrameIn(BufferOf(f), |f|) == f && RepeatedFirst(cm19a, st, f, heard.writes))
        && (!Accepted(st, BufferOf(f), |f|, clk) ==> heard.writes == [])
  {
    hide Process, HandleRf, LineTokens, LineCommand, Says, RadioFrame, ReadSent, Accepted, RepeatedFirst, FrameIn;
    PowerAndRadioWords(line);
    var cmd := RadioCommand(line);
    RadioProcess(cm19a, st, cmd, line, clk);
    var made := RadioFrame(cmd, LineTokens(line));
    if made != None {
      LeadByte(cmd, LineTokens(line));
      FrameInBuffer(made.value);
      FrameRepeated(cm19a, st, BufferOf(made.value), |made.value|, clk);
    }
  }

  // ----- Refused frames -----

  /** The key codes that the camera table leaves unnamed. */
  predicate UnnamedKey(key: byte) { key < 0x54 || key > 0x6E || key in {0x5E, 0x5F, 0x6D} }

  lemma CameraKeyCodes(key: byte)
    ensures IsCamKey(key) <==> !UnnamedKey(key)
  {
    assert key >= 0x54 ==> CamIndex(key) == key as nat - 0x54;
    KeyOrder(key);
  }

  lemma KeyOrder(key: byte)
    ensures key as nat < 0x54 <==> key < 0x54
    ensures key as nat > 0x6E <==> key > 0x6E
    ensures key as nat == 0x5E <==> key == 0x5E
    ensures key as nat == 0x5F <==> key == 0x5F
    ensures key as nat == 0x6D <==> key == 0x6D
  {}

  /** What the decoder demands of a frame of five to eight bytes, its first byte left out. */
  predicate WellFormed(len: nat, b1: byte, b2: byte, b3: byte, b4: byte, b5: byte, b6: byte, b7: byte) {
    || (b1 == 0x14 && b2 == (b4 & 0xF0) + (b3 - 0x2B) && !UnnamedKey(b3))
    || (b1 == 0x20 && b2 ^ b3 == 0x0F && b4 ^ b5 == 0xFF)
    || (b1 == 0x20 && b2 ^ b3 == 0xFF && b4 ^ b5 in {0xFF, 0xFB})
    || (b1 == 0x29 && len == 8 && b2 ^ b3 == 0x0F && b4 ^ b5 == 0xFF && Parity(b6 ^ b7) == 0)
  }

  lemma MaskHigh(b: byte)
    ensures (b >> 4) << 4 == b & 0xF0
  {}

  lemma WellFormedIff(len: nat, b1: byte, b2: byte, b3: byte, b4: byte, b5: byte, b6: byte, b7: byte)
    requires 5 <= len <= 8
    ensures Meaningful(ReadBytes(len, b1, b2, b3, b4, b5, b6, b7)) <==> WellFormed(len, b1, b2, b3, b4, b5, b6, b7)
  {
    hide Parity, ReadHouseUnit, IsCamKey, UnnamedKey, RfIndex;
    MaskHigh(b4);
    CameraKeyCodes(b3);
  }

  /** Exactly the frames with good checksums (and parity, and a known camera key) mean anything; every other frame changes
      nothing and submits nothing, in every state. */
  lemma BadFramesDoNothing(cm19a: bool, st: St, buf: Frame, len: nat, clk: Clock)
    requires RfReadable(buf, len) && |st.dups| == Dup.SLOTS && (len == 0 || buf[1] != 0x5D)
    requires 5 <= len <= 8 ==>
      !WellFormed(len, buf[1], buf[2], buf[3], buf[4], buf[5], if len == 8 then buf[6] else 0, if len == 8 then buf[7] else 0)
    ensures HandleRf(cm19a, st, buf, len, clk) == Effect(st, [])
  {
    hide Offer, ReadBytes, WellFormed;
    assert buf[0..] == buf;
    if 5 <= len <= 8 {
      WellFormedIff(len, buf[1], buf[2], buf[3], buf[4], buf[5], if len == 8 then buf[6] else 0, if len == 8 then buf[7] else 0);
    }
  }

  // ----- What a frame changes -----

  /** A frame that is refused changes nothing and one that is a duplicate only the filter. An accepted one changes, besides
      the filter, nothing if it is a camera, dim or bright frame, and only the sensor table if it is a security frame. */
  lemma FrameChanges(cm19a: bool, st: St, buf: Frame, len: nat, clk: Clock)
    requires RfReadable(buf, len) && |st.dups| == Dup.SLOTS
    ensures var e, r := HandleRf(cm19a, st, buf, len, clk), ReportIn(buf, len);
      var slots := Dup.Filter(st.dups, FrameIn(buf, len), clk).1;
      && (!Meaningful(r) ==> e == Effect(st, []))
      && (Meaningful(r) && !Accepted(st, buf, len, clk) ==> e == Effect(st.(dups := slots), []))
      && (Accepted(st, buf, len, clk) && (r.Camera? || r.DimBright?) ==> e.st == st.(dups := slots))
      && (Accepted(st, buf, len, clk) && (r.Security8? || r.Security24?) ==>
           e.st == st.(dups := slots, sensors := e.st.sensors))
  {
    hide Obey, FrameIn, ReportIn, Dup.Filter;
    var frame, r := FrameIn(buf, len), ReportIn(buf, len);
    if Meaningful(r) && !r.OnOff? {
      ObeyChanges(cm19a, st.(dups := Dup.Filter(st.dups, frame, clk).1), frame, r, clk);
    }
  }

  lemma ObeyChanges(cm19a: bool, st: St, frame: Frame, r: RfReport, clk: Clock)
    requires Meaningful(r) && InRange(r) && frame != [] && |st.dups| == Dup.SLOTS && !r.OnOff?
    ensures var st' := Obey(cm19a, st, frame, r, clk).st;
      && st' == st.(sensors := st'.sensors) && (r.Camera? || r.DimBright? ==> st' == st)
  {
    hide Process, Sensors.Update, BridgeLine, Repeats;
    if r.DimBright? { DimLineEffect(cm19a, st, r.house, r.bright, clk); }
  }

  // ----- Which words make a frame -----

  /** "RF", an address, and a function: On and Off need a unit, Dim and Bright do not, and no other function is sent. */
  lemma RfWords(ts: seq<string>, h: nat, u: int, f: nat)
    requires h < 16 && -1 <= u < 16 && f < FUNCS && |ts| >= 3
    requires ts[1] == AddrWord(h, u) && ts[2] == FuncCommand(f)
    ensures RadioFrame(RF, ts) ==
      if f == 2 && u >= 0 then Some(RfOnOff(h, u, false))
      else if f == 3 && u >= 0 then Some(RfOnOff(h, u, true))
      else if f == 4 then Some(RfDimBright(h, u, false))
      else if f == 5 then Some(RfDimBright(h, u, true))
      else None
  {
    hide RfOnOff, RfDimBright, FuncCommand;
    AddrRoundTrip(h, u);
    Names.FunctionFound(f, 0);
  }

  /** "RFSEC" with an address and a name that the kind of address has. */
  lemma RfSecWords(ts: seq<string>)
    ensures RadioFrame(RFSEC, ts) ==
      if |ts| >= 3 && FindSec(ParseRfAddr(ts[1]).0, ts[2], 0).Some? then
        var (rf8, addr) := ParseRfAddr(ts[1]);
        var key := FindSec(rf8, ts[2], 0).value;
        Some(if rf8 then RfSec8(addr, key) else RfSec24(addr, key))
      else None
  {
    hide ParseRfAddr, FindSec, RfSec8, RfSec24;
  }

  /** "RFCAM" with an address, of which the unit is ignored, and the name of camera key 0x54 + i. */
  lemma RfCamWords(ts: seq<string>, h: nat, u: int, i: nat)
    requires h < 16 && -1 <= u < 16 && i < CAM_KEYS && |ts| >= 3 && ts[1] == AddrWord(h, u) && CamKey(i) == Some(ts[2])
    ensures RadioFrame(RFCAM, ts) == Some(RfCam(h, (0x54 + i) as byte))
  {
    hide RfCam, CamKey;
    AddrRoundTrip(h, u);
    Names.CameraKeyFound(i, 0);
  }

  // ----- Pass-through -----

  lemma {:induction false} ConvertAt(f: string -> byte, ts: seq<string>, n: nat)
    ensures var data := Convert(f, ts, n);
      |data| == (if |ts| < n then |ts| else n) && forall i :: 0 <= i < |data| ==> data[i] == f(ts[i])
    decreases n
  {
    if ts != [] && n > 0 { ConvertAt(f, ts[1..], n - 1); }
  }

  /** PT submits one frame: its first eight words, or as many as there are, read as hexadecimal numbers modulo 256. Alone it
      does nothing. */
  lemma PassThroughWords(cm19a: bool, st: St, line: string, clk: Clock)
    requires Says(line, "PT") && |st.dups| == Dup.SLOTS
    ensures var e, ts := Process(cm19a, st, line, clk), LineTokens(line);
      && e.st == st && |e.writes| == (if |ts| <= 1 then 0 else 1)
      && (|ts| > 1 ==>
           && |e.writes[0]| == (if |ts| <= 8 then |ts| - 1 else 8)
           && forall i :: 0 <= i < |e.writes[0]| ==> e.writes[0][i] as int == StrToNumber(ts[i + 1], 16) % 256)
  {
    hide LineTokens, LineCommand, Says, Convert, StrToNumber, LowByte;
    PowerAndRadioWords(line);
    var ts := LineTokens(line);
    if |ts| > 1 {
      ConvertAt(HexByte, ts[1..], 8);
      forall i | 0 <= i < |ts| - 1
        ensures HexByte(ts[1..][i]) as int == StrToNumber(ts[i + 1], 16) % 256
      {
        LowByteValue(StrToNumber(ts[i + 1], 16));
      }
    }
  }
}
