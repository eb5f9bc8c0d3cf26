/**
 The running program: the statics of decode.c, encode.c, x10state.c and x10_write.c, changed step by step, proved
 to follow the state machine of module System.
*/
module Gateway {
  import opened Common
  import opened Text
  import opened Codes
  import opened Frames
  import opened DeviceState
  import opened Commands
  import opened CommandProperties
  import opened Parser
  import opened System
  import Q = OutputQueue
  import Sensors
  import StatusRow
  import Dup = DupFilter

  const LINE_BYTES: nat := 80

  class Mochad {
    const cm19a: bool
    const units: HouseUnits
    const sensors: Sensors.SensorTable
    const dups: Dup.DupCache
    const out: Q.X10Out
    const tok: StrTok
    const remainder: array<char>
    var remlen: nat
    var rfToPl: bv16
    var rfToRf: nat
    var replies: seq<(int, Reply)>      // everything sent to clients, with the client it was sent to
    ghost var st: St
    ghost const parts: set<object>      // the objects and arrays of units, sensors, dups and out

    /** Everything commands change, except the line buffer and strtok's cursor. */
    ghost function Core(): set<object> { {this} + parts }

    ghost predicate PartsApart() {
      && parts == units.Repr() + sensors.Repr() + dups.Repr() + out.Repr()
      && units.Repr() !! sensors.Repr() && units.Repr() !! dups.Repr() && units.Repr() !! out.Repr()
      && sensors.Repr() !! dups.Repr() && sensors.Repr() !! out.Repr() && dups.Repr() !! out.Repr()
    }

    /** The parts are well formed, share nothing, and hold these values. */
    ghost predicate PartsHold(history: seq<Event>, sensorTable: seq<Sensors.Sensor>, slots: seq<Dup.Slot>)
      reads parts
    {
      && PartsApart()
      && units.Valid() && sensors.Valid() && dups.Valid() && out.Valid()
      && history == units.hist && sensorTable == sensors.Entries() && slots == dups.dups[..]
    }

    ghost predicate Valid()
      reads Core()
    {
      && this !in parts && tok !in Core() && remainder !in Core() && out in parts
      && PartsHold(st.history, st.sensors, st.dups) && st.Valid()
      && st.rfToPl == rfToPl && st.rfToRf == rfToRf
      && remainder.Length == LINE_BYTES && remlen <= LINE_BYTES
    }

    ghost function Value(): Sys
      requires Valid()
      reads Core(), remainder
    {
      Sys(st, remainder[..remlen], out.q, replies)
    }

    /** The statics when the process starts. */
    constructor (cm19a: bool, units: HouseUnits, sensors: Sensors.SensorTable, dups: Dup.DupCache, out: Q.X10Out,
                 tok: StrTok, remainder: array<char>)
      requires units.Valid() && sensors.Valid() && dups.Valid() && out.Valid()
      requires units.hist == [] && sensors.Entries() == [] && dups.dups[..] == Dup.Empty() && out.q == Q.BOOT
      requires units.Repr() !! sensors.Repr() && units.Repr() !! dups.Repr() && units.Repr() !! out.Repr()
      requires sensors.Repr() !! dups.Repr() && sensors.Repr() !! out.Repr() && dups.Repr() !! out.Repr()
      requires tok !in units.Repr() + sensors.Repr() + dups.Repr() + out.Repr()
      requires remainder !in units.Repr() + sensors.Repr() + dups.Repr() + out.Repr()
      requires remainder.Length == LINE_BYTES
      ensures Valid() && this.cm19a == cm19a
      ensures Core() == {this} + units.Repr() + sensors.Repr() + dups.Repr() + out.Repr()
      ensures this.tok == tok && this.remainder == remainder
      ensures Value() == Sys(INITIAL, "", Q.BOOT, [])
    {
      this.cm19a, this.units, this.sensors, this.dups, this.out := cm19a, units, sensors, dups, out;
      this.tok, this.remainder := tok, remainder;
      parts := units.Repr() + sensors.Repr() + dups.Repr() + out.Repr();
      remlen, rfToPl, rfToRf, replies := 0, 0xFFFF, 0, [];
      st := INITIAL;
    }

    /** The process with its statics allocated. */
    static method Boot(cm19a: bool) returns (m: Mochad)
      ensures m.Valid() && m.cm19a == cm19a && m.Value() == Sys(INITIAL, "", Q.BOOT, [])
    {
      hide HouseUnits.Valid, Sensors.SensorTable.Valid, Dup.DupCache.Valid, Q.X10Out.Valid, StrTok.Valid;
      var units, sensors, dups, out := Parts();
      var tok := new StrTok();
      var remainder := new char[LINE_BYTES](_ => '\0');
      m := new Mochad(cm19a, units, sensors, dups, out, tok, remainder);
    }

    static method Parts()
      returns (units: HouseUnits, sensors: Sensors.SensorTable, dups: Dup.DupCache, out: Q.X10Out)
      ensures units.Valid() && sensors.Valid() && dups.Valid() && out.Valid()
      ensures units.hist == [] && sensors.Entries() == [] && dups.dups[..] == Dup.Empty() && out.q == Q.BOOT
      ensures fresh(units.Repr()) && fresh(sensors.Repr()) && fresh(dups.Repr()) && fresh(out.Repr())
      ensures units.Repr() !! sensors.Repr() && units.Repr() !! dups.Repr() && units.Repr() !! out.Repr()
      ensures sensors.Repr() !! dups.Repr() && sensors.Repr() !! out.Repr() && dups.Repr() !! out.Repr()
    {
      hide HouseUnits.Valid, Sensors.SensorTable.Valid, Dup.DupCache.Valid, Q.X10Out.Valid;
      units := new HouseUnits();
      sensors := new Sensors.SensorTable();
      dups := new Dup.DupCache();
      out := new Q.X10Out();
    }

    /** What precedes the main loop. */
    method StartUp()
      requires Valid() && Value() == Sys(INITIAL, "", Q.BOOT, [])
      modifies parts
      ensures Valid() && Value() == Start(cm19a)
    {
      out.StartUpQueue(cm19a);
    }

    // ----- Transmission -----

    method X10Write(frame: Frame)
      requires Valid() && |frame| <= 8
      modifies parts
      ensures Valid() && st == old(st) && remlen == old(remlen)
      ensures out.q == Q.Submit(old(out.q), frame)
    {
      var _ := out.X10Write(frame);
    }

    method SendNextX10Out()
      requires Valid()
      modifies parts
      ensures Valid() && st == old(st)
      ensures out.q == Q.SendNext(old(out.q))
    {
      out.SendNextX10Out();
    }

    /** Retransmits a received frame by patching its first byte in place. */
    method RepeatRf(buf: array<byte>, p: nat, len: nat)
      requires Valid() && buf !in Core()
      requires 0 < len <= 8 && p + len <= buf.Length
      modifies parts, buf
      ensures Valid() && st == old(st) && remlen == old(remlen)
      ensures buf[..] == old(buf[..])
      ensures out.q == Q.SubmitAll(old(out.q), Repeats(cm19a, st, buf[p..p + len]))
    {
      hide PartsHold;
      var saved := buf[p];
      ghost var was := buf[..];
      if rfToRf != 0 {
        buf[p] := 0xEB;
        assert buf[p..p + len] == [0xEB] + was[p..p + len][1..];
        if cm19a {
          assert buf[p + 1..p + len] == buf[p..p + len][1..];
          X10Write(buf[p + 1..p + len]);
        } else {
          X10Write(buf[p..p + len]);
        }
        buf[p] := saved;
        assert buf[..] == was;
        assert Repeats(cm19a, st, buf[p..p + len])[1..] == [];
      }
    }
  
    // ----- Device state -----

    method HuaAdd(house: nat, unit: nat)
      requires Valid() && house < 16 && unit < 16
      modifies this`st, parts
      ensures Valid() && out.q == old(out.q)
      ensures st == old(st).(history := old(st).history + [Address(house, unit)])
    {
      units.HuaAdd(house, unit);
      st := st.(history := units.hist);
    }

    method HuaFunc(house: nat, on: bool)
      requires Valid() && house < 16
      modifies this`st, parts
      ensures Valid() && out.q == old(out.q)
      ensures st == old(st).(history := old(st).history + [Function(house, on)])
    {
      units.HuaFunc(house, on);
      st := st.(history := units.hist);
    }

    method HuaFuncAll(house: nat, on: bool)
      requires Valid() && house < 16
      modifies this`st, parts
      ensures Valid() && out.q == old(out.q)
      ensures st == old(st).(history := old(st).history + [AllUnits(house, on)])
    {
      units.HuaFuncAll(house, on);
      st := st.(history := units.hist);
    }

    method HuaSetStatusXdim(house: nat, unit: nat, xdim: byte)
      requires Valid() && house < 16 && unit < 16
      modifies this`st, parts
      ensures Valid() && out.q == old(out.q)
      ensures st == old(st).(history := old(st).history + [ExtDim(house, unit, xdim)])
    {
      units.HuaSetStatusXdim(house, unit, xdim);
      st := st.(history := units.hist);
    }

    method HuaSecEvent(b0: byte, b1: byte, b2: byte, key: byte, addr8: bool, time: nat)
      requires Valid()
      modifies this`st, parts
      ensures Valid() && out.q == old(out.q)
      ensures st == old(st).(sensors := Sensors.Update(old(st).sensors, Sensors.Addr24(b0, b1, b2), key, addr8, time))
    {
      sensors.HuaSecEvent(b0, b1, b2, key, addr8, time);
      st := st.(sensors := sensors.Entries());
    }

    method HuaSecInit()
      requires Valid()
      modifies this`st, parts
      ensures Valid() && out.q == old(out.q)
      ensures st == old(st).(history := old(st).history + [Reset], sensors := [])
    {
      units.HuaSecInit();
      sensors.Clear();
      st := st.(history := units.hist, sensors := []);
    }

    /** Showing the status prints the row of every house and sorts the sensor table. */
    method HuaShow() returns (rows: seq<string>)
      requires Valid()
      modifies this`st, parts
      ensures Valid() && out.q == old(out.q)
      ensures st == old(st).(sensors := Sensors.Sorted(old(st).sensors))
      ensures rows == StatusRow.DeviceRows(st.history)
    {
      hide HouseUnits.Valid, Dup.DupCache.Valid, Q.X10Out.Valid, StatusRow.DeviceRows, Sensors.Sorted;
      rows := PrintRows(units);
      sensors.SortSensors();
      st := st.(sensors := sensors.Entries());
    }

    method DupFilter(frame: Frame, clk: Clock) returns (suppressed: bool)
      requires Valid() && frame != []
      modifies this`st, parts
      ensures Valid() && out.q == old(out.q)
      ensures (suppressed, st.dups) == Dup.Filter(old(st).dups, frame, clk) && st == old(st).(dups := st.dups)
    {
      suppressed := dups.DupFilter(frame, clk);
      st := st.(dups := dups.dups[..]);
    }

    // ----- cm15a_decode_plc -----

    method DecodePlc(buf: array<byte>, len: nat)
      requires Valid() && PlReadable(buf[..], len) && buf !in Core()
      modifies this`st, parts
      ensures Valid() && out.q == old(out.q)
      ensures st == Hear(old(st), ReadPl(buf[..], len))
    {
      hide PartsHold;
      if 4 <= len <= 8 {
        if buf[2] == 0x00 && buf[1] == 2 {
          DecodeUnit(buf[3]);
          return;
        } else if buf[2] == 0x01 && buf[1] == 2 {
          DecodeFunction(PlIndex(High(buf[3])), Low(buf[3]));
          return;
        } else if buf[2] == 0x07 && len == 7 {
          DecodeExtended(buf[3], buf[4], buf[5], buf[6]);
          return;
        } else if buf[2] == 0x08 && len == 7 {
          DecodeExtended(buf[6], buf[5], buf[4], buf[3]);
          return;
        }
      }
      NothingHeard(st, buf[..], len);
    }

    method DecodeUnit(houseUnit: byte)
      requires Valid()
      modifies this`st, parts
      ensures Valid() && out.q == old(out.q)
      ensures st == Hear(old(st), PlUnit(PlIndex(High(houseUnit)), PlIndex(Low(houseUnit))))
    {
      hide PartsHold;
      HuaAdd(PlIndex(High(houseUnit)), PlIndex(Low(houseUnit)));
    }

    method DecodeExtended(houseFunc: byte, unitCode: byte, data: byte, command: byte)
      requires Valid()
      modifies this`st, parts
      ensures Valid() && out.q == old(out.q)
      ensures st == Hear(old(st), PlExt(PlIndex(High(houseFunc)), PlIndex(Low(unitCode)), Low(houseFunc), data, command))
    {
      hide PartsHold;
      HuaSetStatusXdim(PlIndex(High(houseFunc)), PlIndex(Low(unitCode)), data);
    }

    method DecodeFunction(house: nat, func: byte)
      requires Valid() && house < 16 && func < 16
      modifies this`st, parts
      ensures Valid() && out.q == old(out.q)
      ensures st == Hear(old(st), PlFunc(house, func))
    {
      hide PartsHold;
      assert st.history + [] == st.history;
      match func {
        case 0 => HuaFuncAll(house, false);
        case 6 => HuaFuncAll(house, false);
        case 1 => HuaFuncAll(house, true);
        case 2 => HuaFunc(house, true);
        case 13 => HuaFunc(house, true);
        case 3 => HuaFunc(house, false);
        case 14 => HuaFunc(house, false);
        case _ =>
      }
    }
  
    // ----- Power-line commands -----

    /** The state and the queue changed as this effect says. */
    ghost predicate Did(e: Effect, q: Q.Queue)
      reads this, out
    {
      st == e.st && out.q == Q.SubmitAll(q, e.writes)
    }

    /** Lets the local decoder hear a frame in an encoder's buffer. */
    method Echo(buf: array<byte>, len: nat, ghost r: PlReport)
      requires Valid() && buf !in Core() && PlReadable(buf[..], len) && ReadPl(buf[..], len) == r
      modifies this`st, parts
      ensures Valid() && st == Hear(old(st), r) && out.q == old(out.q)
    {
      hide PartsHold;
      DecodePlc(buf, len);
    }

    method PlTxHouseUnit(house: nat, unit: nat)
      requires Valid() && house < 16 && unit < 16
      modifies this`st, parts
      ensures Valid() && Did(TxUnit(old(st), house, unit), old(out.q))
    {
      hide PartsHold;
      var buf := MakeUnit(house, unit);
      Echo(buf, 4, ReadPl(EchoUnit(house, unit), 4));
      var frame := PatchUnit(buf, house, unit);
      Submit1(frame);
    }

    method PlTxDim(house: nat, func: byte, param: int)
      requires Valid() && house < 16 && func < 16
      modifies this`st, parts
      ensures Valid() && st == Hear(old(st), ReadPl(EchoDim(house, func, param), 5))
      ensures out.q == Q.SubmitAll(old(out.q), [SentDim(house, func, param)])
    {
      hide PartsHold;
      var buf := MakeDim(house, func, param);
      Echo(buf, 5, ReadPl(EchoDim(house, func, param), 5));
      var frame := PatchDim(buf, house, func, param);
      Submit1(frame);
    }

    method PlTxPlain(house: nat, func: byte)
      requires Valid() && house < 16 && func < 16
      modifies this`st, parts
      ensures Valid() && st == Hear(old(st), ReadPl(EchoFunc(house, func), 4))
      ensures out.q == Q.SubmitAll(old(out.q), [SentFunc(house, func)])
    {
      hide PartsHold;
      var buf := MakeFunc(house, func);
      Echo(buf, 4, ReadPl(EchoFunc(house, func), 4));
      var frame := PatchFunc(buf, house, func);
      Submit1(frame);
    }

    method PlTxHouseFunc(house: nat, func: nat, param: int)
      requires Valid() && house < 16 && func < 16
      modifies this`st, parts
      ensures Valid() && Did(TxFunc(old(st), house, func, param), old(out.q))
    {
      hide PartsHold, ReadPl, EchoDim, EchoFunc, SentDim, SentFunc;
      if func == FUNC_DIM || func == FUNC_BRIGHT {
        PlTxDim(house, func as byte, param);
      } else {
        PlTxPlain(house, func as byte);
      }
    }

    method PlTxUnitFunc(house: nat, unit: nat, func: nat, param: int)
      requires Valid() && house < 16 && unit < 16 && func < 16
      modifies this`st, parts
      ensures Valid() && Did(TxUnitFunc(old(st), house, unit, func, param), old(out.q))
    {
      hide PartsHold;
      ghost var e1 := TxUnit(st, house, unit);
      Q.SubmitAllAppend(out.q, e1.writes, TxFunc(e1.st, house, func, param).writes);
      PlTxHouseUnit(house, unit);
      PlTxHouseFunc(house, func, param);
    }

    method PlTxExtendedCode1(house: nat, unit: nat, command: int, subcmd: int, param: int)
      requires Valid() && house < 16 && unit < 16
      modifies this`st, parts
      ensures Valid() && Did(TxExt(old(st), house, unit, command, subcmd, param), old(out.q))
    {
      hide PartsHold;
      var buf := MakeExt(house, unit, command, subcmd, param);
      Echo(buf, 7, ReadPl(EchoExt(house, unit, command, subcmd, param), 7));
      assert buf[2..7] == SentExt(house, unit, command, subcmd, param);
      Submit1(buf[2..7]);
    }

    /** One frame, submitted as a list of one. */
    method Submit1(frame: Frame)
      requires Valid() && |frame| <= 8
      modifies parts
      ensures Valid() && st == old(st) && out.q == Q.SubmitAll(old(out.q), [frame])
    {
      hide PartsHold;
      X10Write(frame);
      assert [frame][1..] == [];
    }

    /** A "PL" line, from its second word on. */
    method PlCommand(ghost ts: seq<string>)
      requires Valid() && tok.Valid() && tok.buf !in Core() && ts != [] && tok.rest == ts[1..]
      modifies this`st, parts, tok, tok.buf
      ensures Valid() && Did(PlLine(old(st), ts), old(out.q))
    {
      hide PartsHold, StrTok.Valid;
      var house, unit, func := GetTarget(tok);
      if house < 0 {
        return;
      }
      if unit < 0 {
        PlHouseCommand(house, func, ts);
      } else {
        PlUnitCommand(house, unit, func, ts);
      }
    }

    /** The effect of a parsed line, its later words being those of ts. */
    ghost function Parsed(st: St, house: int, unit: int, func: int, ts: seq<string>): Effect
      requires -1 <= house < 16 && -1 <= unit < 16 && -1 <= func < FUNCS
    {
      DoPl(st, house, unit, func, ParseParam(Arg(ts, 3)), ParseParam(Arg(ts, 4)), ParseParam(Arg(ts, 5)))
    }

    method PlHouseCommand(house: nat, func: int, ghost ts: seq<string>)
      requires Valid() && tok.Valid() && tok.buf !in Core() && tok.rest == Tail(Tail(Tail(ts)))
      requires house < 16 && -1 <= func < FUNCS
      modifies this`st, parts, tok, tok.buf
      ensures Valid() && Did(Parsed(old(st), house, -1, func, ts), old(out.q))
    {
      hide PartsHold, ParseParam, TxFunc, StrTok.Valid;
      if func < 0 || func == FUNC_EXTENDED_DIM {
        return;
      }
      if func == FUNC_DIM || func == FUNC_BRIGHT {
        var param := GetParam(tok);
        PlTxHouseFunc(house, func, OrDefault(param, 1));
      } else {
        PlTxHouseFunc(house, func, 0);
      }
    }

    method PlUnitCommand(house: nat, unit: nat, func: int, ghost ts: seq<string>)
      requires Valid() && tok.Valid() && tok.buf !in Core() && tok.rest == Tail(Tail(Tail(ts)))
      requires house < 16 && unit < 16 && -1 <= func < FUNCS
      modifies this`st, parts, tok, tok.buf
      ensures Valid() && Did(Parsed(old(st), house, unit, func, ts), old(out.q))
    {
      hide PartsHold, ParseParam, TxUnit, TxExt, TxUnitFunc, StrTok.Valid;
      if func < 0 {
        PlTxHouseUnit(house, unit);
      } else if func == FUNC_EXTENDED_DIM {
        var param := GetParam(tok);
        PlTxExtendedCode1(house, unit, 3, 1, OrDefault(param, 1));
      } else if func == FUNC_DIM || func == FUNC_BRIGHT {
        var param := GetParam(tok);
        PlTxUnitFunc(house, unit, func, OrDefault(param, 1));
      } else if func == FUNC_EXTENDED_CODE_1 {
        ExtendedCommand(house, unit, ts);
      } else {
        PlTxUnitFunc(house, unit, func, 0);
      }
    }

    method ExtendedCommand(house: nat, unit: nat, ghost ts: seq<string>)
      requires Valid() && tok.Valid() && tok.buf !in Core() && tok.rest == Tail(Tail(Tail(ts)))
      requires house < 16 && unit < 16
      modifies this`st, parts, tok, tok.buf
      ensures Valid() && Did(Parsed(old(st), house, unit, FUNC_EXTENDED_CODE_1, ts), old(out.q))
    {
      hide PartsHold, StrTok.Valid;
      var command, subcmd, data := GetThreeParams(tok);
      PlTxExtendedCode1(house, unit, OrDefault(command, 0), OrDefault(subcmd, 0), OrDefault(data, 0));
    }

    // ----- The recursive path -----

    /** cm15a_decode_rf on the first len bytes of a buffer. */
    method DecodeRf(buf: array<byte>, len: nat, clk: Clock)
      requires Valid() && RfReadable(buf[..], len) && buf !in Core()
      modifies this`st, this`rfToPl, this`rfToRf, parts, tok, buf
      ensures Valid() && buf[..] == old(buf[..])
      ensures Did(HandleRf(cm19a, old(st), old(buf[..]), len, clk), old(out.q))
      decreases 1, 4
    {
      hide PartsHold, ReadRf, FrameIn, RfReadable, Offer;
      var p := SkipExtra(buf, len);
      var r := ReadRf(buf[p..], len - p);
      if Meaningful(r) {
        OfferFrame(buf, p, len - p, r, clk);
      }
    }

    /** Passes a well-read frame through the duplicate filter. */
    method OfferFrame(buf: array<byte>, p: nat, n: nat, r: RfReport, clk: Clock)
      requires Valid() && buf !in Core() && 5 <= n <= 8 && p + n <= buf.Length && Meaningful(r) && InRange(r)
      modifies this`st, this`rfToPl, this`rfToRf, parts, tok, buf
      ensures Valid() && buf[..] == old(buf[..])
      ensures Did(Offer(cm19a, old(st), old(buf[p..p + n]), r, clk), old(out.q))
      decreases 1, 3
    {
      hide PartsHold;
      var suppressed := DupFilter(buf[p..p + n], clk);
      if !suppressed {
        ObeyFrame(buf, p, n, r, clk);
      }
    }

    method ObeyFrame(buf: array<byte>, p: nat, n: nat, r: RfReport, clk: Clock)
      requires Valid() && buf !in Core() && 5 <= n <= 8 && p + n <= buf.Length && Meaningful(r) && InRange(r)
      modifies this`st, this`rfToPl, this`rfToRf, parts, tok, buf
      ensures Valid() && buf[..] == old(buf[..])
      ensures Did(Obey(cm19a, old(st), old(buf[p..p + n]), r, clk), old(out.q))
      decreases 1, 2
    {
      hide PartsHold;
      if r.DimBright? {
        RepeatAndBridge(buf, p, n, r.house, -1, if r.bright then FUNC_BRIGHT else FUNC_DIM, clk);
      } else if r.OnOff? {
        HuaAdd(r.house, r.unit);
        HuaFunc(r.house, !r.off);
        assert st.history == old(st).history + [Address(r.house, r.unit), Function(r.house, !r.off)];
        RepeatAndBridge(buf, p, n, r.house, r.unit, if r.off then FUNC_OFF else FUNC_ON, clk);
      } else {
        if r.Security8? {
          HuaSecEvent(0, 0, r.addr, r.key, true, clk.seconds);
        } else if r.Security24? {
          HuaSecEvent(r.a0, r.a1, r.a2, r.key, false, clk.seconds);
        }
        RepeatRf(buf, p, n);
      }
    }

    /** Retransmits a frame by radio if enabled, then over the power line if its house is bridged. */
    method RepeatAndBridge(buf: array<byte>, p: nat, n: nat, house: nat, unit: int, func: nat, clk: Clock)
      requires Valid() && buf !in Core() && 5 <= n <= 8 && p + n <= buf.Length
      requires house < 16 && -1 <= unit < 16 && 2 <= func <= 5
      modifies this`st, this`rfToPl, this`rfToRf, parts, tok, buf
      ensures Valid() && buf[..] == old(buf[..])
      ensures Did(RepeatBridge(cm19a, old(st), old(buf[p..p + n]), house, unit, func, clk), old(out.q))
      decreases 1, 1
    {
      hide PartsHold, Process, BridgeLine, Q.SubmitAll;
      RepeatRf(buf, p, n);
      if !cm19a && rfToPl & HouseBit(house) != 0 {
        Q.SubmitAllAppend(old(out.q), Repeats(cm19a, st, buf[p..p + n]),
                          Process(cm19a, st, BridgeLine(house, unit, func), clk).writes);
        Bridge(house, unit, func, clk);
      }
    }

    /** Prints a command line and gives it to the parser. */
    method Bridge(house: nat, unit: int, func: nat, clk: Clock)
      requires Valid() && house < 16 && -1 <= unit < 16 && 2 <= func <= 5
      modifies this`st, this`rfToPl, this`rfToRf, parts, tok
      ensures Valid()
      ensures Did(Process(cm19a, old(st), BridgeLine(house, unit, func), clk), old(out.q))
      decreases 1, 0
    {
      hide PartsHold, Process, BridgeLine, LineCommand, LineTokens;
      BridgeLineIsPl(house, unit, func);
      var cmdbuf := PrintLine(house, unit, func);
      var _ := ProcessCommandLine(cmdbuf, clk);
    }

    /** Echoes a radio frame to the local decoder and transmits it. */
    method TransmitRf(frame: Frame, clk: Clock)
      requires Valid() && 5 <= |frame| <= 8 && frame[1] != 0x5D
      modifies this`st, this`rfToPl, this`rfToRf, parts, tok
      ensures Valid() && Did(TxRf(cm19a, old(st), frame, clk), old(out.q))
      decreases 1, 5
    {
      hide PartsHold;
      ghost var e := HandleRf(cm19a, st, BufferOf(frame), |frame|, clk);
      Q.SubmitAllAppend(out.q, e.writes, [Wire(cm19a, frame)]);
      var buf := BufferWith(BufferOf(frame));
      DecodeRf(buf, |frame|, clk);
      if cm19a {
        Submit1(frame[1..]);
      } else {
        Submit1(frame);
      }
    }

    /** processcommandline on a line in a buffer, which it rewrites. */
    method ProcessCommandLine(line: array<char>, clk: Clock) returns (reply: Reply)
      requires Valid() && '\0' in line[..] && line !in Core()
      modifies this`st, this`rfToPl, this`rfToRf, parts, tok, line
      ensures Valid()
      ensures Did(Process(cm19a, old(st), old(CString(line[..])), clk), old(out.q))
      ensures reply == Answer(old(st), LineCommand(old(CString(line[..]))), LineTokens(old(CString(line[..]))))
      decreases if LineCommand(CString(line[..])) == PL then 0 else 2, 1
    {
      hide PartsHold, Process, Run, Answer, CommandOf, Tokens, StrTok.Valid;
      reply := NoReply;
      ghost var text := CString(line[..]);
      ProcessDispatches(cm19a, st, text, clk);
      StrUpper(line);
      if CString(line[..]) == "<POLICY-FILE-REQUEST/>" {
        return;
      }
      var command := tok.First(line);
      if command != None {
        reply := RunCommand(CommandOf(command.value), LineTokens(text), clk);
      }
    }

    /** The command, its later words still to be read. */
    method RunCommand(cmd: Command, ghost ts: seq<string>, clk: Clock) returns (reply: Reply)
      requires Valid() && tok.Valid() && tok.buf !in Core() && ts != [] && tok.rest == ts[1..]
      modifies this`st, this`rfToPl, this`rfToRf, parts, tok, tok.buf
      ensures Valid() && Did(Run(cm19a, old(st), cmd, ts, clk), old(out.q))
      ensures reply == Answer(old(st), cmd, ts)
      decreases if cmd == PL then 0 else 2, 0
    {
      hide PartsHold, Run, Answer;
      reply := NoReply;
      QuietCommands(cm19a, st, cmd, ts, clk);
      match cmd {
        case PL => PlCommand(ts);
        case RF => RfCommand(ts, clk);
        case RFSEC => RfSecCommand(ts, clk);
        case RFCAM => RfCamCommand(ts, clk);
        case PT => PassThrough(ts, clk);
        case RFTOPL => RfToPlCommand(ts, clk);
        case RFTORF => RfToRfCommand(ts, clk);
        case ST => reply := StatusCommand(ts, clk);
        case GETSTATUS => reply := GetStatusCommand(ts);
        case GETSTATUSSEC => reply := GetStatusSecCommand(ts);
        case Policy =>
        case Other =>
      }
    }

    method RfCommand(ghost ts: seq<string>, clk: Clock)
      requires Valid() && tok.Valid() && tok.buf !in Core() && ts != [] && tok.rest == ts[1..]
      modifies this`st, this`rfToPl, this`rfToRf, parts, tok, tok.buf
      ensures Valid() && Did(Run(cm19a, old(st), RF, ts, clk), old(out.q))
      decreases 1, 6
    {
      hide PartsHold, StrTok.Valid;
      var house, unit, func := GetTarget(tok);
      var frame := RfFrameFor(house, unit, func);
      if frame != None {
        TransmitRf(frame.value, clk);
      }
    }

    method RfSecCommand(ghost ts: seq<string>, clk: Clock)
      requires Valid() && tok.Valid() && tok.buf !in Core() && ts != [] && tok.rest == ts[1..]
      modifies this`st, this`rfToPl, this`rfToRf, parts, tok, tok.buf
      ensures Valid() && Did(Run(cm19a, old(st), RFSEC, ts, clk), old(out.q))
      decreases 1, 6
    {
      hide PartsHold, StrTok.Valid, ParseRfAddr, FindSec, TxRf;
      var found, rf8, addr := GetRfAddr(tok);
      if found {
        var key := GetRfFunc(tok, rf8);
        if key != None {
          TransmitRf(SecFrame(rf8, addr, key.value), clk);
        }
      }
    }

    method RfCamCommand(ghost ts: seq<string>, clk: Clock)
      requires Valid() && tok.Valid() && tok.buf !in Core() && ts != [] && tok.rest == ts[1..]
      modifies this`st, this`rfToPl, this`rfToRf, parts, tok, tok.buf
      ensures Valid() && Did(Run(cm19a, old(st), RFCAM, ts, clk), old(out.q))
      decreases 1, 6
    {
      hide PartsHold, StrTok.Valid, ParseAddr, FindCam, TxRf;
      var house, _ := GetDeviceAddr(tok);
      if house >= 0 {
        var keyname := tok.Next();
        if keyname != None {
          var i := FindCamRemoteCommand(keyname.value);
          if i >= 0 {
            TransmitRf(RfCam(house, CamCode(i)), clk);
          }
        }
      }
    }

    // ----- The other commands -----

    method PassThrough(ghost ts: seq<string>, ghost clk: Clock)
      requires Valid() && tok.Valid() && tok.buf !in Core() && ts != [] && tok.rest == ts[1..]
      modifies parts, tok, tok.buf
      ensures Valid() && Did(Run(cm19a, old(st), PT, ts, clk), old(out.q))
    {
      hide PartsHold, StrTok.Valid, StrToNumber, St.Valid;
      var data := GetHexData(tok);
      if |data| > 0 {
        Submit1(data);
      }
    }

    method RfToPlCommand(ghost ts: seq<string>, ghost clk: Clock)
      requires Valid() && tok.Valid() && tok.buf !in Core() && ts != [] && tok.rest == ts[1..]
      modifies this`st, this`rfToPl, tok, tok.buf
      ensures Valid() && Did(Run(cm19a, old(st), RFTOPL, ts, clk), old(out.q))
    {
      hide PartsHold, StrTok.Valid, HouseMask;
      rfToPl := GetHouseCodes(tok);
      st := st.(rfToPl := rfToPl);
    }

    method RfToRfCommand(ghost ts: seq<string>, ghost clk: Clock)
      requires Valid() && tok.Valid() && tok.buf !in Core() && ts != [] && tok.rest == ts[1..]
      modifies this`st, this`rfToRf, tok, tok.buf
      ensures Valid() && Did(Run(cm19a, old(st), RFTORF, ts, clk), old(out.q))
    {
      hide PartsHold, StrTok.Valid, StrToNumber;
      var arg := tok.Next();
      if arg != None {
        rfToRf := Wrap64(StrToNumber(arg.value, 10)) % 0x1_0000;
        st := st.(rfToRf := rfToRf);
      }
    }

    method StatusCommand(ghost ts: seq<string>, ghost clk: Clock) returns (reply: Reply)
      requires Valid() && tok.Valid() && tok.buf !in Core() && ts != [] && tok.rest == ts[1..]
      modifies this`st, parts, tok, tok.buf
      ensures Valid() && Did(Run(cm19a, old(st), ST, ts, clk), old(out.q))
      ensures reply == Answer(old(st), ST, ts)
    {
      hide PartsHold, StrTok.Valid, StatusRow.DeviceRows;
      var arg := tok.Next();
      if arg == Some("0") {
        HuaSecInit();
        reply := NoReply;
      } else {
        var rows := HuaShow();
        reply := Rows(rows);
      }
    }

    method GetStatusCommand(ghost ts: seq<string>) returns (reply: Reply)
      requires Valid() && tok.Valid() && tok.buf !in Core() && ts != [] && tok.rest == ts[1..]
      modifies tok, tok.buf
      ensures Valid() && reply == Answer(st, GETSTATUS, ts)
    {
      hide PartsHold, StrTok.Valid, ParseAddr, UnitAnswer;
      var house, unit := GetDeviceAddr(tok);
      if house < 0 || unit < 0 {
        return NoReply;
      }
      var arg := tok.Next();
      reply := UnitReply(house, unit, arg);
    }

    method UnitReply(house: nat, unit: nat, arg: Option<string>) returns (reply: Reply)
      requires Valid() && house < 16 && unit < 16
      ensures reply == UnitAnswer(st.history, house, unit, arg)
    {
      if arg == None {
        var c := units.HuaGetStatus(house, unit);
        return IsOn(c == '1');
      } else if arg.value == "XDIM" {
        var level := units.HuaGetStatusXdim(house, unit);
        return Level(level);
      } else {
        return MinusOne;
      }
    }

    method GetStatusSecCommand(ghost ts: seq<string>) returns (reply: Reply)
      requires Valid() && tok.Valid() && tok.buf !in Core() && ts != [] && tok.rest == ts[1..]
      modifies tok, tok.buf
      ensures Valid() && reply == Answer(st, GETSTATUSSEC, ts)
    {
      hide StrTok.Valid, ParseRfAddr;
      var found, rf8, addr := GetRfAddr(tok);
      if !found {
        return NoReply;
      }
      var status := sensors.HuaGetStatusSec(rf8, addr);
      return IsOn(status == 1);
    }

    // ----- The inputs of the main loop -----

    /** The state while the unfinished line has n bytes. */
    ghost function At(n: nat): Sys
      requires remainder.Length == LINE_BYTES && n <= LINE_BYTES
      reads this, out, remainder
    {
      Sys(st, remainder[..n], out.q, replies)
    }

    /** Sends a reply, if there is one, to a client. */
    method StatusPrintf(fd: int, reply: Reply)
      modifies this`replies
      ensures replies == old(replies) + Sent(fd, reply)
    {
      if reply != NoReply { replies := replies + [(fd, reply)]; }
    }

    /** One byte of input from a client: it extends the unfinished line or ends it, and the client is answered. */
    method ByteIn(fd: int, b: Input1, n: nat) returns (n': nat)
      requires Valid() && n < LINE_BYTES && NoEnd(remainder[..n]) && b.fd == fd
      modifies this`st, this`rfToPl, this`rfToRf, this`replies, parts, tok, remainder
      ensures Valid() && remlen == old(remlen)
      ensures n' <= n + 1 && n' == (if EndsLine(b.c) then 0 else n + 1) && NoEnd(remainder[..n'])
      ensures At(n') == Step(cm19a, old(At(n)), Bytes([b]))
    {
      hide PartsHold, Process, Answer, LineCommand, LineTokens, CString, Step;
      ghost var text := remainder[..n];
      StepOneByte(cm19a, At(n), b);
      remainder[n] := b.c;
      if !EndsLine(b.c) {
        assert remainder[..n + 1] == text + [b.c];
        return n + 1;
      }
      remainder[n] := '\0';
      assert remainder[..][..n] == text;
      CStringIs(remainder[..], n);
      var line := CString(remainder[..]);
      if |line| > 0 {
        var reply := ProcessCommandLine(remainder, b.clk);
        StatusPrintf(fd, reply);
      }
      n' := 0;
      assert remainder[..0] == "";
    }

    /** cm15a_encode: a chunk of bytes from a client. */
    method Encode(fd: int, bytes: seq<Input1>)
      requires Valid() && NoEnd(remainder[..remlen]) && LinesFit(remlen, bytes)
      requires forall i :: 0 <= i < |bytes| ==> bytes[i].fd == fd
      modifies this`st, this`rfToPl, this`rfToRf, this`remlen, this`replies, parts, tok, remainder
      ensures Valid() && NoEnd(remainder[..remlen])
      ensures Value() == Step(cm19a, old(Value()), Bytes(bytes))
    {
      hide PartsHold, Step, Reaches, NoEnd, LinesFit;
      ghost var s0 := At(remlen);
      var n: nat := remlen;
      assert bytes[0..] == bytes;
      ReachStart(cm19a, s0, bytes);
      for i := 0 to |bytes|
        modifies this`st, this`rfToPl, this`rfToRf, this`replies, parts, tok, remainder
        invariant Valid() && n <= LINE_BYTES && NoEnd(remainder[..n]) && LinesFit(n, bytes[i..])
        invariant Reaches(cm19a, s0, bytes, At(n), bytes[i..])
      {
        ReachNext(cm19a, s0, bytes, At(n), bytes[i..]);
        FitNext(n, bytes[i..]);
        assert bytes[i..][1..] == bytes[i + 1..];
        n := ByteIn(fd, bytes[i], n);
      }
      remlen := n;
      ReachEnd(cm19a, s0, bytes, At(n), bytes[|bytes|..]);
    }

    /** What lies behind the packet in the decoder's memory: on a CM15A the rest of the transfer buffer comes first. */
    function Behind(buf: array<byte>, len: nat, after: Frame): Frame
      requires len <= buf.Length
      reads buf
    {
      if cm19a then after else buf[len..] + after
    }

    /** The completion of a USB read: a one-byte packet releases the next frame, and every packet is decoded. The bytes
        in after are those that follow the decoder's buffer in memory. */
    method IntrIn(buf: array<byte>, len: nat, after: Frame, clk: Clock)
      requires Valid() && buf !in Core() && len <= 8 && len <= buf.Length && |after| >= 2
      modifies this`st, this`rfToPl, this`rfToRf, parts, tok
      ensures Valid() && remlen == old(remlen)
      ensures Value() == Step(cm19a, old(Value()), Packet(buf[..len], Behind(buf, len, after), clk))
    {
      hide PartsHold;
      if len == 1 {
        SendNextX10Out();
      }
      DecodePacket(buf, len, after, clk);
    }

    /** cm15a_decode. */
    method DecodePacket(buf: array<byte>, len: nat, after: Frame, clk: Clock)
      requires Valid() && buf !in Core() && len <= 8 && len <= buf.Length && |after| >= 2
      modifies this`st, this`rfToPl, this`rfToRf, parts, tok
      ensures Valid() && remlen == old(remlen)
      ensures Did(Decode(cm19a, old(st), buf[..len], Behind(buf, len, after), clk), old(out.q))
    {
      hide PartsHold, DecodeAt;
      if len < 4 {
        return;
      }
      if cm19a {
        var p := BufferWith([0x5D] + buf[..len] + after);
        DecodeBuffered(p, len + 1, clk);
      } else {
        var p := BufferWith(buf[..] + after);
        assert buf[..] + after == [] + buf[..len] + (buf[len..] + after);
        DecodeBuffered(p, len, clk);
      }
    }

    /** A frame with its leading byte. */
    method DecodeBuffered(p: array<byte>, len: nat, clk: Clock)
      requires Valid() && p !in Core() && 4 <= len && len + 2 <= p.Length
      modifies this`st, this`rfToPl, this`rfToRf, parts, tok, p
      ensures Valid() && remlen == old(remlen)
      ensures Did(DecodeAt(cm19a, old(st), old(p[..]), len, clk), old(out.q))
    {
      hide PartsHold;
      match p[0] {
        case 0x5A => DecodePlc(p, len);
        case 0x5D => DecodeRf(p, len, clk);
        case _ =>
      }
    }

    /** The poll call timed out. */
    method PollTimesOut()
      requires Valid()
      modifies parts
      ensures Valid() && Value() == Step(cm19a, old(Value()), PollTimeout)
    {
      hide PartsHold;
      SendNextX10Out();
    }
  }

  /** No line outgrows the 80-byte buffer: every line, with the byte that ends it, has at most 80 bytes. */
  predicate LinesFit(n: nat, bytes: seq<Input1>)
    decreases |bytes|
  {
    bytes == [] || (n < LINE_BYTES && LinesFit(if EndsLine(bytes[0].c) then 0 else n + 1, bytes[1..]))
  }

  lemma FitNext(n: nat, bytes: seq<Input1>)
    requires bytes != [] && LinesFit(n, bytes)
    ensures n < LINE_BYTES && LinesFit(if EndsLine(bytes[0].c) then 0 else n + 1, bytes[1..])
  {}

  /** From s, the bytes left lead where all the bytes lead from s0. */
  ghost predicate Reaches(cm19a: bool, s0: Sys, all: seq<Input1>, s: Sys, left: seq<Input1>)
  {
    && s0.st.Valid() && s.st.Valid()
    && Step(cm19a, s, Bytes(left)) == Step(cm19a, s0, Bytes(all))
  }

  lemma ReachStart(cm19a: bool, s0: Sys, all: seq<Input1>)
    requires s0.st.Valid()
    ensures Reaches(cm19a, s0, all, s0, all)
  {}

  lemma ReachNext(cm19a: bool, s0: Sys, all: seq<Input1>, s: Sys, left: seq<Input1>)
    requires left != [] && Reaches(cm19a, s0, all, s, left)
    ensures Reaches(cm19a, s0, all, Step(cm19a, s, Bytes([left[0]])), left[1..])
  {
    TwoChunks(cm19a, s, [left[0]], left[1..]);
    assert [left[0]] + left[1..] == left;
  }

  lemma ReachEnd(cm19a: bool, s0: Sys, all: seq<Input1>, s: Sys, left: seq<Input1>)
    requires left == [] && Reaches(cm19a, s0, all, s, left)
    ensures Step(cm19a, s0, Bytes(all)) == s
  {}

  /** Steps over extra 0x5D bytes at the start of a frame. */
  method SkipExtra(buf: array<byte>, len: nat) returns (p: nat)
    requires RfReadable(buf[..], len)
    ensures p <= len && p + (len - p) <= buf.Length && RfReadable(buf[p..], len - p)
    ensures FrameIn(buf[..], len) == buf[p..p + (len - p)]
    ensures ReportIn(buf[..], len) == ReadRf(buf[p..], len - p)
  {
    ghost var mem := buf[..];
    p := 0;
    var n := len;
    assert mem[0..] == mem;
    while buf[p + 1] == 0x5D && n > 0
      invariant p + n == len && p + 1 < buf.Length && RfReadable(mem[p..], n)
      invariant ExtraBytes(mem, len) == p + ExtraBytes(mem[p..], n)
    {
      assert mem[p..][1..] == mem[p + 1..];
      p := p + 1;
      n := n - 1;
    }
    assert buf[p..] == mem[p..];
    assert mem[p..][..len - p] == buf[p..p + (len - p)];
  }

  /** The line printed for a bridged frame, in an 80-byte buffer. */
  method PrintLine(house: nat, unit: int, func: nat) returns (buf: array<char>)
    requires house < 16 && -1 <= unit < 16 && 2 <= func <= 5
    ensures fresh(buf) && '\0' in buf[..] && CString(buf[..]) == BridgeLine(house, unit, func)
  {
    var line := BridgeLine(house, unit, func);
    BridgeLineFits(house, unit, func);
    buf := new char[80](_ => '\0');
    forall i | 0 <= i < |line| { buf[i] := line[i]; }
    assert buf[..][..|line|] == line;
    assert buf[..][|line|] == '\0';
    CStringIs(buf[..], |line|);
  }

  lemma BridgeLineFits(house: nat, unit: int, func: nat)
    requires house < 16 && -1 <= unit < 16 && 2 <= func <= 5
    ensures |BridgeLine(house, unit, func)| < 80 && '\0' !in BridgeLine(house, unit, func)
  {
    hide FuncName, Decimal;
    if unit >= 0 { DecimalFits(unit + 1); }
    FuncNameFits(func);
    BridgeLineShape(house, unit, func);
  }

  lemma DecimalFits(n: nat)
    requires n <= 16
    ensures |Decimal(n)| <= 2 && '\0' !in Decimal(n)
  {
    DecimalShort(n);
  }

  lemma FuncNameFits(f: nat)
    requires 2 <= f <= 5
    ensures |FuncName(f)| <= 27 && '\0' !in FuncName(f)
  {}

  /** The rows of all sixteen houses, one after the other. */
  method PrintRows(units: HouseUnits) returns (rows: seq<string>)
    requires units.Valid()
    ensures rows == StatusRow.DeviceRows(units.hist)
  {
    hide HouseUnits.Holds;
    rows := [];
    for h := 0 to 16
      invariant rows == StatusRow.DeviceRows(units.hist)[..h]
    {
      var row := StatusRow.ShowRow(units, h);
      rows := rows + [row];
    }
  }

  method BufferWith(contents: Frame) returns (buf: array<byte>)
    ensures fresh(buf) && buf[..] == contents
  {
    buf := new byte[|contents|](i requires 0 <= i < |contents| => contents[i]);
  }

  // ----- Filling and patching the encoder's buffers -----

  method MakeUnit(house: nat, unit: nat) returns (buf: array<byte>)
    requires house < 16 && unit < 16
    ensures fresh(buf) && buf[..] == EchoUnit(house, unit)
  {
    buf := new byte[4];
    buf[0], buf[1], buf[2], buf[3] := 0x00, 0x02, 0x00, HouseUnit(house, unit);
  }

  /** The transmitted frame is the end of the same buffer, with its third byte rewritten. */
  method PatchUnit(buf: array<byte>, house: nat, unit: nat) returns (frame: Frame)
    requires house < 16 && unit < 16 && buf[..] == EchoUnit(house, unit)
    modifies buf
    ensures frame == SentUnit(house, unit)
  {
    assert buf[3] == buf[..][3];
    buf[2] := 0x04;
    frame := buf[2..4];
  }

  method MakeFunc(house: nat, func: byte) returns (buf: array<byte>)
    requires house < 16 && func < 16
    ensures fresh(buf) && buf.Length == 7 && buf[..4] == EchoFunc(house, func)
    ensures PlReadable(buf[..], 4) && ReadPl(buf[..], 4) == ReadPl(EchoFunc(house, func), 4)
  {
    buf := new byte[7](_ => 0);
    buf[1], buf[2], buf[3] := 0x02, 0x01, HouseFunc(house, func);
    SameFunc(buf[..], EchoFunc(house, func));
  }

  method PatchFunc(buf: array<byte>, house: nat, func: byte) returns (frame: Frame)
    requires house < 16 && func < 16 && buf.Length == 7 && buf[..4] == EchoFunc(house, func)
    modifies buf
    ensures frame == SentFunc(house, func)
  {
    assert buf[3] == buf[..4][3];
    buf[2] := 0x06;
    frame := buf[2..4];
  }

  method MakeDim(house: nat, func: byte, param: int) returns (buf: array<byte>)
    requires house < 16 && func < 16
    ensures fresh(buf) && buf.Length == 7 && buf[..5] == EchoDim(house, func, param)
    ensures PlReadable(buf[..], 5) && ReadPl(buf[..], 5) == ReadPl(EchoDim(house, func, param), 5)
  {
    buf := new byte[7](_ => 0);
    buf[1], buf[2], buf[3], buf[4] := 0x03, 0x02, DimBits(param) | 0x01, HouseFunc(house, func);
    SameDim(buf[..], EchoDim(house, func, param));
  }

  /** For dim and bright the last two bytes also change places. */
  method PatchDim(buf: array<byte>, house: nat, func: byte, param: int) returns (frame: Frame)
    requires house < 16 && func < 16 && buf.Length == 7 && buf[..5] == EchoDim(house, func, param)
    modifies buf
    ensures frame == SentDim(house, func, param)
  {
    assert buf[4] == buf[..5][4];
    buf[2] := 0x06;
    buf[3] := buf[4];
    buf[4] := 0x06 | DimBits(param);
    frame := buf[2..5];
  }

  method MakeExt(house: nat, unit: nat, command: int, subcmd: int, param: int) returns (buf: array<byte>)
    requires house < 16 && unit < 16
    ensures fresh(buf) && buf[..] == EchoExt(house, unit, command, subcmd, param)
    ensures buf[2..] == SentExt(house, unit, command, subcmd, param)
  {
    buf := new byte[7];
    buf[0], buf[1], buf[2], buf[3] := 0x00, 0x05, 0x07, HouseFunc(house, 7);
    buf[4], buf[5], buf[6] := X10HouseCode(unit), LowByte(param), CommandByte(command, subcmd);
  }

  /** Only the first four (five for dim and bright) bytes of these frames are read. */
  lemma SameFunc(b: Frame, c: Frame)
    requires |b| >= 4 && |c| == 4 && b[..4] == c && c[2] == 0x01
    ensures PlReadable(b, 4) && ReadPl(b, 4) == ReadPl(c, 4)
  {
    assert b[1] == c[1] && b[2] == c[2] && b[3] == c[3];
  }

  lemma SameDim(b: Frame, c: Frame)
    requires |b| >= 5 && |c| == 5 && b[..5] == c && c[2] == 0x02
    ensures PlReadable(b, 5) && ReadPl(b, 5) == ReadPl(c, 5)
  {
    assert b[1] == c[1] && b[2] == c[2] && b[3] == c[3] && b[4] == c[4];
  }

  /** The other frames, dim and bright among them, leave the history as it is. */
  lemma NothingHeard(st: St, buf: Frame, len: nat)
    requires PlReadable(buf, len)
    requires !(4 <= len <= 8 && (((buf[2] == 0x00 || buf[2] == 0x01) && buf[1] == 2)
                                 || ((buf[2] == 0x07 || buf[2] == 0x08) && len == 7)))
    ensures Hear(st, ReadPl(buf, len)) == st
  {
    assert st.history + [] == st.history;
  }

  /** Where the parser goes after reading the first word. */
  lemma ProcessDispatches(cm19a: bool, st: St, text: string, clk: Clock)
    requires st.Valid()
    ensures var ts := LineTokens(text);
      if Upper(text) == "<POLICY-FILE-REQUEST/>" || ts == [] then
        Process(cm19a, st, text, clk) == Nothing(st) && Answer(st, LineCommand(text), ts) == NoReply
      else
        LineCommand(text) == CommandOf(ts[0])
        && Process(cm19a, st, text, clk) == Run(cm19a, st, CommandOf(ts[0]), ts, clk)
  {
    hide Run, Answer, CommandOf;
    QuietCommands(cm19a, st, Policy, LineTokens(text), clk);
    QuietCommands(cm19a, st, Other, LineTokens(text), clk);
  }

  /** Commands that change nothing, commands that answer nothing, and the one that is all power line. */
  lemma QuietCommands(cm19a: bool, st: St, cmd: Command, ts: seq<string>, clk: Clock)
    requires st.Valid()
    ensures cmd in {GETSTATUS, GETSTATUSSEC, Policy, Other} ==> Run(cm19a, st, cmd, ts, clk) == Nothing(st)
    ensures cmd !in {GETSTATUS, GETSTATUSSEC, ST} ==> Answer(st, cmd, ts) == NoReply
    ensures cmd == PL ==> Run(cm19a, st, cmd, ts, clk) == PlLine(st, ts)
  {
    hide TxRf, PlLine, RadioFrame, Sensors.Sorted, HexBytes, HouseMask, StrToNumber;
  }
}
