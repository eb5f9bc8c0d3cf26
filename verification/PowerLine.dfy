/**
 What goes over the power line and what it does: the bytes of transmitted frames, and the tracker after received packets
 and after PL lines, unit by unit.
*/
module PowerLine {
  import opened Common
  import opened Text
  import opened Codes
  import opened Frames
  import opened DeviceState
  import opened Commands
  import opened CommandProperties
  import opened Words
  import opened System
  import Names
  import Dup = DupFilter

  // ----- Transmitted bytes -----

  /** The layout of a frame with this meaning: the header's bit 1 tells a function from an address and its bit 0 an
      extended code; the third byte of a dim ends in 110, and that of an extended code is a unit code alone. */
  predicate LaidOut(w: Frame, r: PlReport) {
    && |w| == (if r.PlExt? then 5 else if r.PlDim? then 3 else 2)
    && w[0] & 0xF8 == 0 && w[0] & 0x04 == 0x04
    && (w[0] & 0x02 != 0 <==> !r.PlUnit?)
    && (w[0] & 0x01 != 0 <==> r.PlExt?)
    && (r.PlDim? ==> w[2] & 0x07 == 0x06)
    && (r.PlExt? ==> w[2] & 0xF0 == 0)
  }

  lemma HighZero(b: byte)
    ensures High(b) == 0 <==> b & 0xF0 == 0
  {}

  lemma FourSet(b: byte)
    ensures b & 0x04 != 0 <==> b & 0x04 == 0x04
  {}

  lemma ReadableIsLaidOut(w: Frame)
    requires ReadSent(w) != PlNothing
    ensures LaidOut(w, ReadSent(w))
  {
    hide PlIndex, High, Low;
    FourSet(w[0]);
    if |w| == 5 { HighZero(w[2]); }
  }

  lemma SameNibbles(a: byte, b: byte)
    requires High(a) == High(b) && Low(a) == Low(b)
    ensures a == b
  {}

  lemma SameIndex(a: byte, b: byte)
    requires a < 16 && b < 16 && PlIndex(a) == PlIndex(b)
    ensures a == b
  {
    hide PlIndex, X10HouseCode, X10HouseCodeRf, RfIndex;
    CodesInverseBack(a);
    CodesInverseBack(b);
  }

  lemma SameHeader(a: byte, b: byte)
    requires ProperHeader(a) && ProperHeader(b) && a & 0x02 == b & 0x02 && a & 0x01 == b & 0x01
    ensures a == b
  {}

  lemma SameFlags(a: byte, b: byte)
    requires a & 0x02 != 0 <==> b & 0x02 != 0
    requires a & 0x01 != 0 <==> b & 0x01 != 0
    ensures a & 0x02 == b & 0x02 && a & 0x01 == b & 0x01
  {}

  lemma SameAmount(a: byte, b: byte)
    requires (a >> 3) as nat == (b >> 3) as nat && a & 0x07 == b & 0x07
    ensures a == b
  {
    assert a >> 3 == b >> 3;
  }

  lemma SameSecondByte(v: Frame, w: Frame)
    requires ReadSent(v) == ReadSent(w) != PlNothing && |v| == |w|
    ensures v[1] == w[1]
  {
    hide PlIndex;
    SameIndex(High(v[1]), High(w[1]));
    if ReadSent(v).PlUnit? { SameIndex(Low(v[1]), Low(w[1])); }
    SameNibbles(v[1], w[1]);
  }

  lemma SameThirdByte(v: Frame, w: Frame)
    requires ReadSent(v) == ReadSent(w) != PlNothing && |v| == |w| > 2
    ensures v[2] == w[2]
  {
    hide PlIndex;
    if |v| == 5 {
      SameIndex(Low(v[2]), Low(w[2]));
      SameNibbles(v[2], w[2]);
    } else {
      SameAmount(v[2], w[2]);
    }
  }

  /** A transmitted frame is determined byte for byte by what it says. */
  lemma SentDetermined(v: Frame, w: Frame)
    requires ReadSent(v) == ReadSent(w) != PlNothing
    ensures v == w
  {
    ReadableIsLaidOut(v);
    ReadableIsLaidOut(w);
    assert |v| == |w| && |v| in {2, 3, 5};
    SameFlags(v[0], w[0]);
    SameHeaders(v, w);
    SameSecondByte(v, w);
    if |v| > 2 { SameThirdByte(v, w); }
    if |v| == 5 { SameTail(v, w); }
  }

  lemma SameHeaders(v: Frame, w: Frame)
    requires ReadSent(v) == ReadSent(w) != PlNothing && v != [] && w != []
    requires v[0] & 0x02 == w[0] & 0x02 && v[0] & 0x01 == w[0] & 0x01
    ensures v[0] == w[0]
  {
    SameHeader(v[0], w[0]);
  }

  lemma SameTail(v: Frame, w: Frame)
    requires ReadSent(v) == ReadSent(w) != PlNothing && |v| == |w| == 5
    ensures v[3] == w[3] && v[4] == w[4]
  {}

  lemma AskedIsSomething(ts: seq<string>, i: nat)
    requires i < |AskedByWords(ts)|
    ensures AskedByWords(ts)[i] != PlNothing
  {}

  /** Every PL line, in every state, submits one frame for each thing its words ask for, saying just that, in the layout
      of the power-line interface. */
  lemma LineFramesLaidOut(cm19a: bool, st: St, line: string, clk: Clock)
    requires Says(line, "PL") && |st.dups| == Dup.SLOTS
    ensures var ws, rs := Process(cm19a, st, line, clk).writes, AskedByWords(LineTokens(line));
      |ws| == |rs| && forall i :: 0 <= i < |ws| ==> ReadSent(ws[i]) == rs[i] && LaidOut(ws[i], rs[i])
  {
    hide Process, AskedByWords, LineTokens, Says, ReadSent, LaidOut;
    PlLineTransmitsWhatIsAsked(cm19a, st, line, clk);
    var ws, rs := Process(cm19a, st, line, clk).writes, AskedByWords(LineTokens(line));
    forall i | 0 <= i < |ws|
      ensures ReadSent(ws[i]) == rs[i] && LaidOut(ws[i], rs[i])
    {
      AskedIsSomething(LineTokens(line), i);
      ReadableIsLaidOut(ws[i]);
    }
  }

  // ----- The tracker, unit by unit -----

  /** Status and dim level of a unit after function code c for its house. */
  function AfterCode(c: byte, selected: bool, before: (Status, byte)): (Status, byte) {
    if c == 0 || c == 6 || ((c == 3 || c == 14) && selected) then (Off, 0)
    else if c == 1 || ((c == 2 || c == 13) && selected) then (On, 63)
    else before
  }

  /** The codes that close an address group. */
  predicate ClosingCode(c: byte) { c in {0, 1, 2, 3, 6, 13, 14} }

  /** Codes 0 and 6 switch every unit of house h off and code 1 switches every one on; codes 2 and 13, and 3 and 14, do so
      to the units of the last address group; nothing else changes, and these codes close the group. */
  ghost predicate CodeApplied(hist: seq<Event>, hist': seq<Event>, h: nat, c: byte)
    requires ValidHistory(hist) && ValidHistory(hist')
  {
    forall g, v :: 0 <= g < 16 && 0 <= v < 16 ==> CodeOnUnit(hist, hist', h, c, g, v)
  }

  ghost predicate CodeOnUnit(hist: seq<Event>, hist': seq<Event>, h: nat, c: byte, g: nat, v: nat)
    requires ValidHistory(hist) && ValidHistory(hist') && g < 16 && v < 16
  {
    && Shown(hist', g, v) == (if g == h then AfterCode(c, InLastGroup(hist, g, v), Shown(hist, g, v)) else Shown(hist, g, v))
    && (InLastGroup(hist', g, v) <==> InLastGroup(hist, g, v))
    && (GroupClosed(hist', g) <==> GroupClosed(hist, g) || (g == h && ClosingCode(c)))
  }

  /** Unit u of house h joins the last address group, or begins one if that is closed; no status changes. */
  ghost predicate UnitAddressed(hist: seq<Event>, hist': seq<Event>, h: nat, u: nat)
    requires ValidHistory(hist) && ValidHistory(hist')
  {
    forall g, v :: 0 <= g < 16 && 0 <= v < 16 ==> AddressOnUnit(hist, hist', h, u, g, v)
  }

  ghost predicate AddressOnUnit(hist: seq<Event>, hist': seq<Event>, h: nat, u: nat, g: nat, v: nat)
    requires ValidHistory(hist) && ValidHistory(hist') && g < 16 && v < 16
  {
    && Shown(hist', g, v) == Shown(hist, g, v)
    && (InLastGroup(hist', g, v) <==>
         if g == h then v == u || (InLastGroup(hist, g, v) && !GroupClosed(hist, g)) else InLastGroup(hist, g, v))
    && (GroupClosed(hist', g) <==> g != h && GroupClosed(hist, g))
  }

  /** Unit u of house h has this dim level and is on iff it is not zero; it alone is selected, and nothing else changes. */
  ghost predicate LevelSet(hist: seq<Event>, hist': seq<Event>, h: nat, u: nat, level: byte)
    requires ValidHistory(hist) && ValidHistory(hist')
  {
    forall g, v :: 0 <= g < 16 && 0 <= v < 16 ==> LevelOnUnit(hist, hist', h, u, level, g, v)
  }

  ghost predicate LevelOnUnit(hist: seq<Event>, hist': seq<Event>, h: nat, u: nat, level: byte, g: nat, v: nat)
    requires ValidHistory(hist) && ValidHistory(hist') && g < 16 && v < 16
  {
    && Shown(hist', g, v) == (if g == h && v == u then (if level == 0 then Off else On, level) else Shown(hist, g, v))
    && (InLastGroup(hist', g, v) <==> if g == h then v == u else InLastGroup(hist, g, v))
    && (GroupClosed(hist', g) <==> g == h || GroupClosed(hist, g))
  }

  lemma RowsMean(hist: seq<Event>, g: nat, v: nat)
    requires ValidHistory(hist) && g < 16 && v < 16
    ensures var row := RowsAfter(hist)[g];
      Shown(hist, g, v) == (row.status[v], row.level[v])
      && (row.selected[v] <==> InLastGroup(hist, g, v)) && (row.closed <==> GroupClosed(hist, g))
  {
    SelectionMeaning(hist, g, v);
    ClosedMeaning(hist, g);
  }

  lemma CodeEvents(hist: seq<Event>, h: nat, c: byte)
    requires ValidHistory(hist) && h < 16 && c < 16
    ensures ValidHistory(hist + PlEvents(PlFunc(h, c)))
    ensures CodeApplied(hist, hist + PlEvents(PlFunc(h, c)), h, c)
  {
    hide CodeOnUnit, PlEvents, RowsAfter;
    EventsAppend(hist, PlFunc(h, c));
    forall g, v | 0 <= g < 16 && 0 <= v < 16
      ensures CodeOnUnit(hist, hist + PlEvents(PlFunc(h, c)), h, c, g, v)
    {
      CodeOnOne(hist, h, c, g, v);
    }
  }

  /** A report is at most one event. */
  lemma EventsAppend(hist: seq<Event>, r: PlReport)
    requires ValidHistory(hist) && (!r.PlNothing? ==> r.house < 16) && (r.PlUnit? || r.PlExt? ==> r.unit < 16)
    ensures ValidHistory(hist + PlEvents(r))
    ensures RowsAfter(hist + PlEvents(r))
         == if PlEvents(r) == [] then RowsAfter(hist) else Apply(RowsAfter(hist), PlEvents(r)[0])
  {
    if PlEvents(r) == [] {
      assert hist + [] == hist;
    } else {
      RowsAfterAppend(hist, PlEvents(r)[0]);
    }
  }

  lemma CodeOnOne(hist: seq<Event>, h: nat, c: byte, g: nat, v: nat)
    requires ValidHistory(hist) && h < 16 && c < 16 && g < 16 && v < 16
    ensures ValidHistory(hist + PlEvents(PlFunc(h, c)))
    ensures CodeOnUnit(hist, hist + PlEvents(PlFunc(h, c)), h, c, g, v)
  {
    hide RowsAfter, Shown, InLastGroup, GroupClosed;
    EventsAppend(hist, PlFunc(h, c));
    RowsMean(hist, g, v);
    RowsMean(hist + PlEvents(PlFunc(h, c)), g, v);
  }

  lemma AddressEvents(hist: seq<Event>, h: nat, u: nat)
    requires ValidHistory(hist) && h < 16 && u < 16
    ensures ValidHistory(hist + PlEvents(PlUnit(h, u)))
    ensures UnitAddressed(hist, hist + PlEvents(PlUnit(h, u)), h, u)
  {
    hide AddressOnUnit, PlEvents, RowsAfter;
    EventsAppend(hist, PlUnit(h, u));
    forall g, v | 0 <= g < 16 && 0 <= v < 16
      ensures AddressOnUnit(hist, hist + PlEvents(PlUnit(h, u)), h, u, g, v)
    {
      AddressOnOne(hist, h, u, g, v);
    }
  }

  lemma AddressOnOne(hist: seq<Event>, h: nat, u: nat, g: nat, v: nat)
    requires ValidHistory(hist) && h < 16 && u < 16 && g < 16 && v < 16
    ensures ValidHistory(hist + PlEvents(PlUnit(h, u)))
    ensures AddressOnUnit(hist, hist + PlEvents(PlUnit(h, u)), h, u, g, v)
  {
    hide RowsAfter, Shown, InLastGroup, GroupClosed;
    EventsAppend(hist, PlUnit(h, u));
    RowsMean(hist, g, v);
    RowsMean(hist + PlEvents(PlUnit(h, u)), g, v);
  }

  lemma LevelEvents(hist: seq<Event>, h: nat, u: nat, f: byte, level: byte, command: byte)
    requires ValidHistory(hist) && h < 16 && u < 16
    ensures ValidHistory(hist + PlEvents(PlExt(h, u, f, level, command)))
    ensures LevelSet(hist, hist + PlEvents(PlExt(h, u, f, level, command)), h, u, level)
  {
    hide LevelOnUnit, PlEvents, RowsAfter;
    EventsAppend(hist, PlExt(h, u, f, level, command));
    forall g, v | 0 <= g < 16 && 0 <= v < 16
      ensures LevelOnUnit(hist, hist + PlEvents(PlExt(h, u, f, level, command)), h, u, level, g, v)
    {
      LevelOnOne(hist, PlExt(h, u, f, level, command), g, v);
    }
  }

  lemma LevelOnOne(hist: seq<Event>, r: PlReport, g: nat, v: nat)
    requires ValidHistory(hist) && r.PlExt? && r.house < 16 && r.unit < 16 && g < 16 && v < 16
    ensures ValidHistory(hist + PlEvents(r))
    ensures LevelOnUnit(hist, hist + PlEvents(r), r.house, r.unit, r.data, g, v)
  {
    hide RowsAfter, Shown, InLastGroup, GroupClosed;
    EventsAppend(hist, r);
    RowsMean(hist, g, v);
    RowsMean(hist + PlEvents(r), g, v);
  }

  // ----- Received packets -----

  /** Only the history changes, and nothing is submitted. */
  predicate OnlyHeard(st: St, e: Effect) { e == Effect(st.(history := e.st.history), []) }

  lemma PlcDecoded(st: St, p: Frame, after: Frame, clk: Clock)
    requires |st.dups| == Dup.SLOTS && 4 <= |p| <= 8 && p[0] == 0x5A && |after| >= 2
    ensures Decode(false, st, p, after, clk) == Nothing(Hear(st, ReadPl(p + after, |p|)))
  {
    hide ReadPl;
    assert DecodeBuffer(false, p, after) == p + after;
  }

  /** A packet 5A 02 01 b: the function in the low nibble of b for the house in its high nibble. */
  lemma FunctionPacket(st: St, p: Frame, after: Frame, clk: Clock)
    requires st.Valid() && |after| >= 2 && 4 <= |p| <= 8 && p[..3] == [0x5A, 0x02, 0x01]
    ensures var e := Decode(false, st, p, after, clk);
      && OnlyHeard(st, e) && ValidHistory(e.st.history)
      && CodeApplied(st.history, e.st.history, PlIndex(High(p[3])), Low(p[3]))
  {
    hide Decode, PlIndex, PlEvents, CodeApplied;
    ShapeOf(p, after);
    PlcDecoded(st, p, after, clk);
    CodeEvents(st.history, PlIndex(High(p[3])), Low(p[3]));
  }

  lemma ShapeOf(p: Frame, after: Frame)
    requires |p| >= 4
    ensures forall i :: 0 <= i < 3 ==> p[i] == p[..3][i] == (p + after)[i]
    ensures p[..3] == [p[0], p[1], p[2]]
    ensures forall i :: 0 <= i < |p| ==> (p + after)[i] == p[i]
  {}

  /** A packet 5A 02 00 b: the address of a unit. */
  lemma AddressPacket(st: St, p: Frame, after: Frame, clk: Clock)
    requires st.Valid() && |after| >= 2 && 4 <= |p| <= 8 && p[..3] == [0x5A, 0x02, 0x00]
    ensures var e := Decode(false, st, p, after, clk);
      && OnlyHeard(st, e) && ValidHistory(e.st.history)
      && UnitAddressed(st.history, e.st.history, PlIndex(High(p[3])), PlIndex(Low(p[3])))
  {
    hide Decode, PlIndex, PlEvents, UnitAddressed;
    ShapeOf(p, after);
    PlcDecoded(st, p, after, clk);
    AddressEvents(st.history, PlIndex(High(p[3])), PlIndex(Low(p[3])));
  }

  /** The two extended packets, which hold the same bytes in opposite orders: 5A x 07 house unit level command, and
      5A x 08 command level unit house. */
  lemma ExtendedPacket(st: St, p: Frame, after: Frame, clk: Clock)
    requires st.Valid() && |after| >= 2 && |p| == 7 && p[0] == 0x5A && p[2] in {0x07, 0x08}
    ensures var e := Decode(false, st, p, after, clk);
      && OnlyHeard(st, e) && ValidHistory(e.st.history)
      && (p[2] == 0x07 ==> LevelSet(st.history, e.st.history, PlIndex(High(p[3])), PlIndex(Low(p[4])), p[5]))
      && (p[2] == 0x08 ==> LevelSet(st.history, e.st.history, PlIndex(High(p[6])), PlIndex(Low(p[5])), p[4]))
  {
    hide Decode, PlIndex, PlEvents, LevelSet;
    ShapeOf(p, after);
    PlcDecoded(st, p, after, clk);
    if p[2] == 0x07 {
      LevelEvents(st.history, PlIndex(High(p[3])), PlIndex(Low(p[4])), Low(p[3]), p[5], p[6]);
    } else {
      LevelEvents(st.history, PlIndex(High(p[6])), PlIndex(Low(p[5])), Low(p[6]), p[4], p[3]);
    }
  }

  /** The power-line packets that reach the tracker. */
  predicate Tracked(p: Frame) {
    |p| >= 4 && ((p[1] == 0x02 && p[2] in {0x00, 0x01}) || (|p| == 7 && p[2] in {0x07, 0x08}))
  }

  /** Every other packet that is not a radio frame changes nothing, dim and bright amounts included. */
  lemma OtherPacketsDoNothing(st: St, p: Frame, after: Frame, clk: Clock)
    requires |st.dups| == Dup.SLOTS && |after| >= 2 && |p| <= 8
    requires |p| < 4 || (p[0] == 0x5A && !Tracked(p)) || p[0] !in {0x5A, 0x5D}
    ensures Decode(false, st, p, after, clk) == Effect(st, [])
  {
    if |p| >= 4 {
      ShapeOf(p, after);
      assert DecodeBuffer(false, p, after) == p + after;
      assert st.history + [] == st.history;
    }
  }

  /** A CM19A has no power line: each of its packets of four bytes or more is a radio frame, and shorter ones do nothing. */
  lemma Cm19aPackets(st: St, p: Frame, after: Frame, clk: Clock)
    requires |st.dups| == Dup.SLOTS && |after| >= 2 && |p| <= 8
    ensures Decode(true, st, p, after, clk) ==
      if |p| < 4 then Effect(st, []) else HandleRf(true, st, [0x5D] + p + after, |p| + 1, clk)
  {
    hide HandleRf;
  }

  // ----- Lines -----

  lemma LineHeard(cm19a: bool, st: St, line: string, clk: Clock)
    requires Says(line, "PL") && |st.dups| == Dup.SLOTS
    ensures var e, rs := Process(cm19a, st, line, clk), AskedByWords(LineTokens(line));
      && e.st == st.(history := e.st.history)
      && (|rs| == 1 ==> e.st.history == st.history + PlEvents(rs[0]))
      && (|rs| == 2 ==> e.st.history == st.history + PlEvents(rs[0]) + PlEvents(rs[1]))
  {
    hide Process, AskedByWords, LineTokens, Says, ReadSent, PlEvents;
    PlLineTransmitsWhatIsAsked(cm19a, st, line, clk);
    var ws := Process(cm19a, st, line, clk).writes;
    assert |ws| == 1 ==> EventsOf(ws) == PlEvents(ReadSent(ws[0])) by { OneEvent(ws); }
    assert |ws| == 2 ==> EventsOf(ws) == PlEvents(ReadSent(ws[0])) + PlEvents(ReadSent(ws[1])) by { TwoEvents(ws); }
    ThreeParts(st.history, ws);
  }

  lemma OneEvent(ws: seq<Frame>)
    ensures |ws| == 1 ==> EventsOf(ws) == PlEvents(ReadSent(ws[0]))
  {
    if |ws| == 1 {
      assert ws[..0] == [];
      assert EventsOf(ws) == [] + PlEvents(ReadSent(ws[0]));
    }
  }

  lemma TwoEvents(ws: seq<Frame>)
    ensures |ws| == 2 ==> EventsOf(ws) == PlEvents(ReadSent(ws[0])) + PlEvents(ReadSent(ws[1]))
  {
    if |ws| == 2 { OneEvent(ws[..1]); }
  }

  lemma ThreeParts(hist: seq<Event>, ws: seq<Frame>)
    ensures |ws| == 2 ==>
      hist + (PlEvents(ReadSent(ws[0])) + PlEvents(ReadSent(ws[1])))
      == hist + PlEvents(ReadSent(ws[0])) + PlEvents(ReadSent(ws[1]))
  {}

  /** The words "PL", an address and the name of function f, and nothing or numbers behind. */
  ghost predicate Asks(line: string, h: nat, u: int, f: nat)
    requires h < 16 && -1 <= u < 16 && f < 16
  {
    var ts := LineTokens(line);
    Says(line, "PL") && |ts| >= 3 && ts[1] == AddrWord(h, u) && ts[2] == FuncCommand(f)
  }

  lemma AskedFor(line: string, h: nat, u: int, f: nat)
    requires h < 16 && -1 <= u < 16 && f < 16 && f != FUNC_EXTENDED_CODE_1 && Asks(line, h, u, f)
    ensures var rs := AskedByWords(LineTokens(line));
      var report := if f in {FUNC_DIM, FUNC_BRIGHT} then PlDim(h, f as byte, NumberOr(Arg(LineTokens(line), 3), 1) % 32)
                    else PlFunc(h, f as byte);
      rs == (if u < 0 then [] else [PlUnit(h, u)]) + [report]
  {
    hide NumberOr, FuncCommand;
    var ts := LineTokens(line);
    Names.FunctionFound(f, 0);
    AddrRoundTrip(h, u);
    AddressMeaning(ts[1]);
  }

  /** A line for a whole house: the code of the named function is applied. */
  lemma HouseFunctionLine(cm19a: bool, st: St, line: string, clk: Clock, h: nat, f: nat)
    requires st.Valid() && h < 16 && f < 16 && f != FUNC_EXTENDED_CODE_1 && Asks(line, h, -1, f)
    ensures var e := Process(cm19a, st, line, clk);
      ValidHistory(e.st.history) && CodeApplied(st.history, e.st.history, h, f as byte)
  {
    hide Process, AskedByWords, PlEvents, CodeApplied, NumberOr;
    LineHeard(cm19a, st, line, clk);
    AskedFor(line, h, -1, f);
    FunctionHeard(st.history, h, f, NumberOr(Arg(LineTokens(line), 3), 1) % 32);
  }

  lemma FunctionHeard(hist: seq<Event>, h: nat, f: nat, amount: nat)
    requires ValidHistory(hist) && h < 16 && f < 16
    ensures var r := if f in {FUNC_DIM, FUNC_BRIGHT} then PlDim(h, f as byte, amount) else PlFunc(h, f as byte);
      ValidHistory(hist + PlEvents(r)) && CodeApplied(hist, hist + PlEvents(r), h, f as byte)
  {
    hide CodeApplied;
    CodeEvents(hist, h, f as byte);
    assert f in {FUNC_DIM, FUNC_BRIGHT} ==> PlEvents(PlFunc(h, f as byte)) == [];
  }

  /** A line for a unit: it is addressed, and then the code is applied. */
  lemma UnitFunctionLine(cm19a: bool, st: St, line: string, clk: Clock, h: nat, u: nat, f: nat)
    requires st.Valid() && h < 16 && u < 16 && f < 16 && f != FUNC_EXTENDED_CODE_1 && Asks(line, h, u, f)
    ensures var e := Process(cm19a, st, line, clk);
      && ValidHistory(e.st.history)
      && exists mid :: ValidHistory(mid) && UnitAddressed(st.history, mid, h, u)
                       && CodeApplied(mid, e.st.history, h, f as byte)
  {
    hide Process, AskedByWords, PlEvents, CodeApplied, UnitAddressed, NumberOr, CodeOnUnit, AddressOnUnit;
    LineHeard(cm19a, st, line, clk);
    AskedFor(line, h, u, f);
    var mid := st.history + PlEvents(PlUnit(h, u));
    AddressEvents(st.history, h, u);
    FunctionHeard(mid, h, f, NumberOr(Arg(LineTokens(line), 3), 1) % 32);
  }

  /** "PL" with a house and ALL_UNITS_OFF, in any letters, switches every unit of the house off. */
  lemma AllUnitsOff(cm19a: bool, st: St, line: string, clk: Clock, h: nat)
    requires st.Valid() && h < 16 && Says(line, "PL") && |LineTokens(line)| >= 3
    requires LineTokens(line)[1] == [HouseChar(h)] && LineTokens(line)[2] == "ALL_UNITS_OFF"
    ensures var e := Process(cm19a, st, line, clk);
      ValidHistory(e.st.history) && forall u :: 0 <= u < 16 ==> Shown(e.st.history, h, u) == (Off, 0)
  {
    hide Process, LineTokens, Says, Shown, InLastGroup, GroupClosed;
    assert AddrWord(h, -1) == [HouseChar(h)] + "" == [HouseChar(h)];
    HouseFunctionLine(cm19a, st, line, clk, h, 0);
    var hist' := Process(cm19a, st, line, clk).st.history;
    forall u | 0 <= u < 16
      ensures Shown(hist', h, u) == (Off, 0)
    {
      assert CodeOnUnit(st.history, hist', h, 0, h, u);
    }
  }

  /** "PL", a unit and XDIM, with a level that is 1 if left out: the unit has that level, modulo 256. "PL", a unit and
      EXTENDED_CODE_1: the unit has the level of the third number, 0 if left out. */
  lemma ExtendedLine(cm19a: bool, st: St, line: string, clk: Clock, h: nat, u: nat)
    requires st.Valid() && h < 16 && u < 16 && Says(line, "PL") && |LineTokens(line)| >= 3
    requires LineTokens(line)[1] == AddrWord(h, u) && LineTokens(line)[2] in {"XDIM", "EXTENDED_CODE_1"}
    ensures var e, ts := Process(cm19a, st, line, clk), LineTokens(line);
      && ValidHistory(e.st.history)
      && LevelSet(st.history, e.st.history, h, u,
                  LowByte(if ts[2] == "XDIM" then NumberOr(Arg(ts, 3), 1) else NumberOr(Arg(ts, 5), 0)))
  {
    hide Process, PlEvents, LevelSet, NumberOr, LineTokens, Says, LowByte, AskedByWords, AddrWord, CommandByte;
    var ts := LineTokens(line);
    LineHeard(cm19a, st, line, clk);
    ExtendedWords(ts, h, u);
    var level := LowByte(if ts[2] == "XDIM" then NumberOr(Arg(ts, 3), 1) else NumberOr(Arg(ts, 5), 0));
    var c :| AskedByWords(ts) == [PlExt(h, u, 7, level, c)];
    LevelEvents(st.history, h, u, 7, level, c);
  }

  lemma ExtendedWords(ts: seq<string>, h: nat, u: nat)
    requires h < 16 && u < 16 && |ts| >= 3 && ts[1] == AddrWord(h, u) && ts[2] in {"XDIM", "EXTENDED_CODE_1"}
    ensures var level := LowByte(if ts[2] == "XDIM" then NumberOr(Arg(ts, 3), 1) else NumberOr(Arg(ts, 5), 0));
      exists c :: AskedByWords(ts) == [PlExt(h, u, 7, level, c)]
  {
    hide NumberOr, LowByte, CommandByte, AskedByWords, FindFunc;
    var f := if ts[2] == "XDIM" then 16 else 7;
    Names.FunctionFound(f, 0);
    AddrRoundTrip(h, u);
    AddressMeaning(ts[1]);
    ExtendedAsked(ts, h, u, f);
  }

  lemma ExtendedAsked(ts: seq<string>, h: nat, u: nat, f: nat)
    requires h < 16 && u < 16 && |ts| >= 3 && f in {7, 16} && ParseFunc(Some(ts[2])) == f
    requires 2 <= |ts[1]| <= 3 && IsHouse(ts[1][0]) && HouseIndex(ts[1][0]) == h && Magnitude(ts[1][1..], 10, 0) == u + 1
    ensures AskedByWords(ts) == [PlExt(h, u, 7, LowByte(if f == 16 then NumberOr(Arg(ts, 3), 1) else NumberOr(Arg(ts, 5), 0)),
                                       if f == 16 then 0x31 else CommandByte(NumberOr(Arg(ts, 3), 0), NumberOr(Arg(ts, 4), 0)))]
  {
    hide NumberOr, LowByte, CommandByte, ParseFunc;
  }
}
