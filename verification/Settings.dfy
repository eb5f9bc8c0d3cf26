/** The settings and the reset: what a gateway starts with, and what RFTOPL, RFTORF and ST lines leave. */
module Settings {
  import opened Common
  import opened Text
  import opened Frames
  import opened DeviceState
  import opened Commands
  import opened CommandProperties
  import opened Words
  import opened System
  import Codes
  import Naming = Names
  import Sensors
  import Q = OutputQueue
  import Dup = DupFilter

  // ----- At the start -----

  /** A gateway starts with every unit unknown and none selected, no sensors, no unfinished line, no reply, every house of a
      CM15A bridged, and no repetition. */
  lemma StartsBlank(cm19a: bool, h: nat, u: nat)
    requires h < 16 && u < 16
    ensures var s := Start(cm19a);
      && Shown(s.st.history, h, u) == (Unknown, 0) && !InLastGroup(s.st.history, h, u)
      && s.st.sensors == [] && s.pending == "" && s.replies == []
      && (Bridged(cm19a, s.st, h) <==> !cm19a) && s.st.rfToRf == 0
    ensures forall k :: 0 <= k < 16 ==> !Start(cm19a).st.dups[k].Used()
  {
    BitsDistinct(h, h);
  }

  // ----- The ends of lines -----

  /** Exactly line feed, carriage return and NUL end a line: the line is handed over unless it is empty, and the next one
      begins empty. */
  lemma LineEnds(pending: string, b: Input1)
    ensures if b.c == '\n' || b.c == '\r' || b.c == '\0'
      then Split(pending, [b]) == (if pending == "" then [] else [Line(b.fd, pending, b.clk)], "")
      else Split(pending, [b]) == ([], pending + [b.c])
  {
    LastByte(pending, b);
  }

  // ----- Bridging -----

  /** "RFTOPL *" bridges every house, and "RFTOPL 0", or RFTOPL alone, none. */
  lemma AllOrNone(st: St, line: string, clk: Clock, h: nat)
    requires Says(line, "RFTOPL") && |st.dups| == Dup.SLOTS && h < 16
    ensures var st' := Process(false, st, line, clk).st;
      && (|Tokens(line)| == 1 ==> !Bridged(false, st', h))
      && (|Tokens(line)| > 1 && Tokens(line)[1] == "*" ==> Bridged(false, st', h))
      && (|Tokens(line)| > 1 && Tokens(line)[1] == "0" ==> !Bridged(false, st', h))
  {
    hide Process, Says, Tokens;
    RfToPlLine(st, line, clk, h);
  }

  // ----- Repetition -----

  lemma ModIs(x: int, q: int, r: int)
    requires x == 0x1_0000 * q + r && 0 <= r < 0x1_0000
    ensures x % 0x1_0000 == r
  {}

  lemma Wrap16(x: int)
    ensures Wrap64(x) % 0x1_0000 == x % 0x1_0000
  {
    var a, w := x / 0x1_0000_0000_0000_0000, Wrap64(x);
    var b, c := w / 0x1_0000, w % 0x1_0000;
    assert x == 0x1_0000_0000_0000_0000 * a + w && w == 0x1_0000 * b + c;
    ModIs(x, 0x1_0000_0000_0000 * a + b, c);
  }

  /** RFTORF stores the number of its second word modulo 2^16, and without one leaves the setting. */
  lemma RfToRfLine(cm19a: bool, st: St, line: string, clk: Clock)
    requires Says(line, "RFTORF") && |st.dups| == Dup.SLOTS
    ensures Process(cm19a, st, line, clk) ==
      Effect(if |LineTokens(line)| <= 1 then st
             else st.(rfToRf := StrToNumber(LineTokens(line)[1], 10) % 0x1_0000), [])
  {
    hide LineTokens, LineCommand, Says, StrToNumber, Wrap64;
    SettingAndQueryWords(line);
    if |LineTokens(line)| > 1 { Wrap16(StrToNumber(LineTokens(line)[1], 10)); }
  }

  /** A decimal number n switches repetition off iff n is a multiple of 2^16, and otherwise on. */
  lemma RfToRfNumber(cm19a: bool, st: St, line: string, clk: Clock, n: nat)
    requires Says(line, "RFTORF") && |st.dups| == Dup.SLOTS
    requires |LineTokens(line)| > 1 && LineTokens(line)[1] == Decimal(n)
    ensures Process(cm19a, st, line, clk) == Effect(st.(rfToRf := n % 0x1_0000), [])
  {
    hide LineTokens, Process, Says, StrToNumber, Decimal;
    RfToRfLine(cm19a, st, line, clk);
    Naming.DecimalRead(n);
  }

  // ----- ST -----

  /** "ST 0" leaves every unit unknown and unselected and no sensor, and nothing else changed. */
  lemma StatusReset(cm19a: bool, st: St, line: string, clk: Clock, h: nat, u: nat)
    requires st.Valid() && Says(line, "ST") && Arg(LineTokens(line), 1) == Some("0") && h < 16 && u < 16
    ensures var e := Process(cm19a, st, line, clk);
      && e == Effect(st.(history := e.st.history, sensors := []), []) && ValidHistory(e.st.history)
      && Shown(e.st.history, h, u) == (Unknown, 0) && !InLastGroup(e.st.history, h, u)
    ensures ReplyTo(st, line) == NoReply
  {
    hide LineTokens, LineCommand, Says, Shown, InLastGroup;
    SettingAndQueryWords(line);
    RowsAfterAppend(st.history, Reset);
    SelectionMeaning(st.history + [Reset], h, u);
    LastReset(st.history, h, u);
  }

  lemma LastReset(hist: seq<Event>, h: nat, u: nat)
    requires ValidHistory(hist) && h < 16 && u < 16
    ensures ValidHistory(hist + [Reset]) && Shown(hist + [Reset], h, u) == (Unknown, 0)
  {
    RowsAfterAppend(hist, Reset);
  }

  /** Any other ST line changes no answer: the tracker is as it was, and the sensor table holds the same sensors. */
  lemma StatusListed(cm19a: bool, st: St, line: string, clk: Clock)
    requires st.Valid() && Says(line, "ST") && Arg(LineTokens(line), 1) != Some("0")
    ensures var e := Process(cm19a, st, line, clk);
      && e == Effect(st.(sensors := e.st.sensors), [])
      && multiset(e.st.sensors) == multiset(st.sensors) && Sensors.Table(e.st.sensors) == Sensors.Table(st.sensors)
  {
    hide LineTokens, LineCommand, Says, Sensors.Sorted, Sensors.Table;
    SettingAndQueryWords(line);
    Sensors.SortedSorts(st.sensors);
    Sensors.PermutationKeepsTable(st.sensors, Sensors.Sorted(st.sensors));
  }
}
