/**
 The byte layouts: the frames encode.c builds and the reading decode.c gives to frames. An encoder of a
 power-line command builds two frames, one echoed to the local decoder and one, laid out differently, sent.
*/
module Frames {
  import opened Common
  import opened Codes

  // ----- Power line: encoding -----

  function HouseUnit(h: nat, u: nat): byte
    requires h < 16 && u < 16
  {
    (X10HouseCode(h) << 4) | X10HouseCode(u)
  }

  function HouseFunc(h: nat, f: byte): byte
    requires h < 16 && f < 16
  {
    (X10HouseCode(h) << 4) | f
  }

  function EchoUnit(h: nat, u: nat): Frame
    requires h < 16 && u < 16
  {
    [0x00, 0x02, 0x00, HouseUnit(h, u)]
  }

  function SentUnit(h: nat, u: nat): Frame
    requires h < 16 && u < 16
  {
    [0x04, HouseUnit(h, u)]
  }

  function EchoFunc(h: nat, f: byte): Frame
    requires h < 16 && f < 16
  {
    [0x00, 0x02, 0x01, HouseFunc(h, f)]
  }

  function SentFunc(h: nat, f: byte): Frame
    requires h < 16 && f < 16
  {
    [0x06, HouseFunc(h, f)]
  }

  /** The dim amount, five bits shifted to the top of its byte; the parameter may be any int. */
  function DimBits(param: int): byte { (param % 32) as byte << 3 }

  function EchoDim(h: nat, f: byte, param: int): Frame
    requires h < 16 && f < 16
  {
    [0x00, 0x03, 0x02, DimBits(param) | 0x01, HouseFunc(h, f)]
  }

  function SentDim(h: nat, f: byte, param: int): Frame
    requires h < 16 && f < 16
  {
    [0x06, HouseFunc(h, f), 0x06 | DimBits(param)]
  }

  function LowByte(x: int): byte { (x % 256) as byte }

  function CommandByte(command: int, subcmd: int): byte { ((LowByte(command) & 0x0F) << 4) | (LowByte(subcmd) & 0x0F) }

  function EchoExt(h: nat, u: nat, command: int, subcmd: int, param: int): Frame
    requires h < 16 && u < 16
  {
    [0x00, 0x05, 0x07, HouseFunc(h, 7), X10HouseCode(u), LowByte(param), CommandByte(command, subcmd)]
  }

  function SentExt(h: nat, u: nat, command: int, subcmd: int, param: int): Frame
    requires h < 16 && u < 16
  {
    [0x07, HouseFunc(h, 7), X10HouseCode(u), LowByte(param), CommandByte(command, subcmd)]
  }

  // ----- Power line: decoding -----

  /** What a power-line frame says. */
  datatype PlReport =
    | PlUnit(house: nat, unit: nat)
    | PlFunc(house: nat, func: byte)
    | PlDim(house: nat, func: byte, dims: nat)
    | PlExt(house: nat, unit: nat, func: byte, data: byte, command: byte)
    | PlNothing

  predicate PlReadable(buf: Frame, len: nat) {
    && len <= |buf|
    && (4 <= len && buf[2] == 0x02 && buf[1] == 3 ==> |buf| >= 5)
  }

  /** The local decoder's reading of a frame held in a buffer that may be longer. */
  function ReadPl(buf: Frame, len: nat): (r: PlReport)
    requires PlReadable(buf, len)
    ensures !r.PlNothing? ==> r.house < 16
    ensures r.PlUnit? || r.PlExt? ==> r.unit < 16
    ensures r.PlFunc? ==> r.func < 16
  {
    if len < 4 || len > 8 then PlNothing
    else
      match buf[2]
      case 0x00 =>
        if buf[1] != 2 then PlNothing else PlUnit(PlIndex(High(buf[3])), PlIndex(Low(buf[3])))
      case 0x01 =>
        if buf[1] != 2 then PlNothing else PlFunc(PlIndex(High(buf[3])), Low(buf[3]))
      case 0x02 =>
        if buf[1] != 3 then PlNothing
        else PlDim(PlIndex(High(buf[4])), Low(buf[4]), ((buf[3] & 0xF8) >> 3) as nat)
      case 0x07 =>
        if len != 7 then PlNothing
        else PlExt(PlIndex(High(buf[3])), PlIndex(Low(buf[4])), Low(buf[3]), buf[5], buf[6])
      case 0x08 =>
        if len != 7 then PlNothing
        else PlExt(PlIndex(High(buf[6])), PlIndex(Low(buf[5])), Low(buf[6]), buf[4], buf[3])
      case _ => PlNothing
  }

  /** The first byte of a transmitted frame has bits 7 to 3 clear and bit 2 set. */
  predicate ProperHeader(b: byte) { b & 0xF8 == 0 && b & 0x04 != 0 }

  /** The reading of a frame as transmitted, by the header bits of its first byte: bit 0 extended, bit 1 function
      (else address), and a third byte of a function holds the dim amount in its top five bits, above 110. */
  function ReadSent(frame: Frame): PlReport {
    if |frame| == 0 || !ProperHeader(frame[0]) then PlNothing
    else if frame[0] & 0x01 != 0 then
      if |frame| != 5 || frame[0] & 0x02 == 0 || High(frame[2]) != 0 then PlNothing
      else PlExt(PlIndex(High(frame[1])), PlIndex(Low(frame[2])), Low(frame[1]), frame[3], frame[4])
    else if frame[0] & 0x02 != 0 then
      if |frame| == 2 then PlFunc(PlIndex(High(frame[1])), Low(frame[1]))
      else if |frame| == 3 && frame[2] & 0x07 == 0x06 then
        PlDim(PlIndex(High(frame[1])), Low(frame[1]), (frame[2] >> 3) as nat)
      else PlNothing
    else if |frame| == 2 then PlUnit(PlIndex(High(frame[1])), PlIndex(Low(frame[1])))
    else PlNothing
  }

  lemma Nibbles(a: byte, b: byte)
    requires a < 16 && b < 16
    ensures High((a << 4) | b) == a && Low((a << 4) | b) == b
  {}

  lemma DimBitsShift(d: byte)
    requires d < 32
    ensures (((d << 3) | 0x01) & 0xF8) >> 3 == d && (0x06 | (d << 3)) >> 3 == d && (0x06 | (d << 3)) & 0x07 == 0x06
  {}

  lemma DimBitsRead(param: int)
    ensures (((DimBits(param) | 0x01) & 0xF8) >> 3) as nat == param % 32
    ensures ((0x06 | DimBits(param)) >> 3) as nat == param % 32 && (0x06 | DimBits(param)) & 0x07 == 0x06
  {
    var d := (param % 32) as byte;
    ByteBack(param % 32);
    DimBitsShift(d);
  }

  lemma PlUnitAgrees(h: nat, u: nat)
    requires h < 16 && u < 16
    ensures ReadPl(EchoUnit(h, u), 4) == ReadSent(SentUnit(h, u)) == PlUnit(h, u)
  {
    CodesInverse(h);
    CodesInverse(u);
    Nibbles(X10HouseCode(h), X10HouseCode(u));
  }

  lemma PlFuncAgrees(h: nat, f: byte)
    requires h < 16 && f < 16
    ensures ReadPl(EchoFunc(h, f), 4) == ReadSent(SentFunc(h, f)) == PlFunc(h, f)
  {
    CodesInverse(h);
    Nibbles(X10HouseCode(h), f);
  }

  lemma PlDimRead(h: nat, f: byte, amount: byte)
    requires h < 16 && f < 16
    ensures ReadPl([0x00, 0x03, 0x02, amount | 0x01, HouseFunc(h, f)], 5)
         == PlDim(h, f, (((amount | 0x01) & 0xF8) >> 3) as nat)
    ensures (0x06 | amount) & 0x07 == 0x06 ==>
      ReadSent([0x06, HouseFunc(h, f), 0x06 | amount]) == PlDim(h, f, ((0x06 | amount) >> 3) as nat)
  {
    HouseFuncRead(h, f);
  }

  /** For every int parameter the dim amount carried is the parameter modulo 32. */
  lemma PlDimAgrees(h: nat, f: byte, param: int)
    requires h < 16 && f < 16
    ensures ReadPl(EchoDim(h, f, param), 5) == ReadSent(SentDim(h, f, param)) == PlDim(h, f, param % 32)
  {
    PlDimRead(h, f, DimBits(param));
    DimBitsRead(param);
  }

  lemma ExtShape(hf: byte, uc: byte, data: byte, command: byte)
    requires High(uc) == 0
    ensures var report := PlExt(PlIndex(High(hf)), PlIndex(Low(uc)), Low(hf), data, command);
      && ReadPl([0x00, 0x05, 0x07, hf, uc, data, command], 7) == report
      && ReadSent([0x07, hf, uc, data, command]) == report
  {}

  lemma HouseFuncRead(h: nat, f: byte)
    requires h < 16 && f < 16
    ensures PlIndex(High(HouseFunc(h, f))) == h && Low(HouseFunc(h, f)) == f
  {
    CodesInverse(h);
    Nibbles(X10HouseCode(h), f);
  }

  lemma UnitRead(u: nat)
    requires u < 16
    ensures PlIndex(Low(X10HouseCode(u))) == u && High(X10HouseCode(u)) == 0
  {
    CodesInverse(u);
    assert Low(X10HouseCode(u)) == X10HouseCode(u);
  }

  /** For every int parameter the level carried is the parameter modulo 256, the command nibbles modulo 16. */
  lemma PlExtAgrees(h: nat, u: nat, command: int, subcmd: int, param: int)
    requires h < 16 && u < 16
    ensures ReadPl(EchoExt(h, u, command, subcmd, param), 7) == ReadSent(SentExt(h, u, command, subcmd, param))
         == PlExt(h, u, 7, LowByte(param), CommandByte(command, subcmd))
    ensures LowByte(param) as int == param % 256
    ensures High(CommandByte(command, subcmd)) as int == command % 16
    ensures Low(CommandByte(command, subcmd)) as int == subcmd % 16
  {
    HouseFuncRead(h, 7);
    UnitRead(u);
    ExtShape(HouseFunc(h, 7), X10HouseCode(u), LowByte(param), CommandByte(command, subcmd));
    LowByteValue(param);
    Nibbles(LowByte(command) & 0x0F, LowByte(subcmd) & 0x0F);
    LowNibble(command);
    LowNibble(subcmd);
  }

  lemma LowByteValue(x: int)
    ensures LowByte(x) as int == x % 256
  {
    ByteBack(x % 256);
  }

  lemma LowNibble(x: int)
    ensures (LowByte(x) & 0x0F) as int == x % 16
  {
    hide LowByte;
    LowByteValue(x);
    MaskIsMod(LowByte(x));
    ModMod(x);
  }

  lemma ModMod(x: int)
    ensures (x % 256) % 16 == x % 16
  {
    assert x == 16 * (16 * (x / 256) + (x % 256) / 16) + (x % 256) % 16;
  }

  lemma MaskIsMod(b: byte)
    ensures (b & 0x0F) as int == b as int % 16
  {
    assert b == ((b >> 4) << 4) | (b & 0x0F);
    assert (b >> 4) < 16;
    NibbleSum(b >> 4, b & 0x0F);
  }

  lemma NibbleSum(a: byte, b: byte)
    requires a < 16 && b < 16
    ensures ((a << 4) | b) as int == 16 * a as int + b as int
  {
    assert (a << 4) | b == 16 * a + b;
    assert 16 * a <= 240;
  }

  // ----- Radio: encoding -----

  /** Standard on/off: four unit bits are spread over two bytes. */
  function RfUnitBits(u: nat, off: bool): byte
    requires u < 16
  {
    var unit := u as byte;
    (if off then 0x20 else 0) | ((unit & 0x04) << 4) | ((unit & 0x02) << 2) | ((unit & 0x01) << 4)
  }

  /** Bit 3 of the unit, which is set when there is no unit (-1). */
  function RfHouseByte(h: nat, unit: int): byte
    requires h < 16
  {
    (X10HouseCodeRf(h) << 4) | ((LowByte(unit) & 0x08) >> 1)
  }

  function RfFrame(house: byte, key: byte): Frame { [0xEB, 0x20, house, !house, key, !key] }

  function RfOnOff(h: nat, u: nat, off: bool): Frame
    requires h < 16 && u < 16
  {
    RfFrame(RfHouseByte(h, u), RfUnitBits(u, off))
  }

  function RfDimBright(h: nat, unit: int, bright: bool): Frame
    requires h < 16
  {
    RfFrame(RfHouseByte(h, unit), if bright then 0x88 else 0x98)
  }

  function RfSec8(addr: nat, key: byte): Frame {
    var a := LowByte(addr);
    [0xEB, 0x20, a, a ^ 0x0F, key, !key]
  }

  function RfSec24(addr: nat, key: byte): Frame {
    var a := LowByte(addr / 0x1_0000);
    [0xEB, 0x29, a, a ^ 0x0F, key, !key, LowByte(addr / 0x100), LowByte(addr)]
  }

  function RfCam(h: nat, key: byte): Frame
    requires h < 16
  {
    var house := X10HouseCodeRf(h) << 4;
    [0xEB, 0x14, house + (key - 0x2B), key, house]
  }

  // ----- Radio: decoding -----

  /** What a radio frame says. */
  datatype RfReport =
    | TooShort
    | TooLong
    | Camera(house: nat, key: byte)
    | UnknownCamera
    | Security8(addr: byte, key: byte)
    | Security24(a0: byte, a1: byte, a2: byte, key: byte)
    | OnOff(house: nat, unit: nat, off: bool)
    | DimBright(house: nat, bright: bool)
    | BadChecksum
    | BadParity
    | Unsupported

  /** How many extra 0x5D bytes the decoder steps over. */
  function ExtraBytes(buf: Frame, len: nat): (k: nat)
    ensures k <= len && k <= |buf|
    decreases len
  {
    if |buf| >= 2 && buf[1] == 0x5D && len > 0 then 1 + ExtraBytes(buf[1..], len - 1) else 0
  }

  /** The decoder looks at the byte after the frame's first even when the frame is shorter, and at the sixth byte of
      a five-byte frame: the bytes following a frame in memory must exist. */
  predicate RfReadable(buf: Frame, len: nat) {
    len + 2 <= |buf| || (len <= |buf| && 6 <= |buf| && buf[1] != 0x5D)
  }

  lemma {:induction false} StaysReadable(buf: Frame, len: nat)
    requires RfReadable(buf, len)
    ensures var k := ExtraBytes(buf, len);
      RfReadable(buf[k..], len - k) && !(buf[k..][1] == 0x5D && len - k > 0)
    decreases len
  {
    if buf[1] == 0x5D && len > 0 {
      StaysReadable(buf[1..], len - 1);
      var k := ExtraBytes(buf[1..], len - 1);
      assert buf[1..][k..] == buf[k + 1..];
    } else {
      assert buf[0..] == buf;
    }
  }

  /** 1 for an odd number of one bits, as the decoder's 256-entry table lists. */
  function Parity(b: byte): byte {
    (b ^ (b >> 1) ^ (b >> 2) ^ (b >> 3) ^ (b >> 4) ^ (b >> 5) ^ (b >> 6) ^ (b >> 7)) & 1
  }

  /** The camera checksum and key test. */
  function ReadCam(checksum: byte, key: byte, house: byte): RfReport {
    var code := house >> 4;
    if checksum != (code << 4) + (key - 0x2B) || !IsCamKey(key) then UnknownCamera
    else Camera(RfIndex(code), key)
  }

  function ReadHouseUnit(house: byte, key: byte): (r: RfReport)
    ensures r.OnOff? || r.DimBright?
    ensures r.house < 16 && (r.OnOff? ==> r.unit < 16)
  {
    var h := RfIndex(High(house));
    if key == 0x88 then DimBright(h, true)
    else if key == 0x98 then DimBright(h, false)
    else
      var bits := ((house & 0x04) << 1) | ((key & 0x40) >> 4) | ((key & 0x08) >> 2) | ((key & 0x10) >> 4);
      assert bits < 16;
      OnOff(h, bits as nat, (key & 0x20) >> 5 == 1)
  }

  predicate InRange(r: RfReport) {
    && (r.Camera? || r.OnOff? || r.DimBright? ==> r.house < 16)
    && (r.OnOff? ==> r.unit < 16)
  }

  /** The decoder accepts the frame, unless it is a duplicate. */
  predicate Meaningful(r: RfReport) { r.Camera? || r.Security8? || r.Security24? || r.OnOff? || r.DimBright? }

  /** The reading of a frame of length 5 to 8 by its bytes from the second to the eighth, which shorter frames lack. */
  function ReadBytes(len: nat, b1: byte, b2: byte, b3: byte, b4: byte, b5: byte, b6: byte, b7: byte): (r: RfReport)
    ensures InRange(r)
  {
    match b1
    case 0x14 => ReadCam(b2, b3, b4)
    case 0x20 =>
      if b2 ^ b3 == 0x0F then
        if b4 ^ b5 != 0xFF then BadChecksum else Security8(b2, b4)
      else if b2 ^ b3 == 0xFF then
        if b4 ^ b5 != 0xFF && b4 ^ b5 != 0xFB then BadChecksum else ReadHouseUnit(b2, b4)
      else BadChecksum
    case 0x29 =>
      if len < 8 || b2 ^ b3 != 0x0F || b4 ^ b5 != 0xFF then BadChecksum
      else if Parity(b6 ^ b7) != 0 then BadParity
      else Security24(b2, b6, b7, b4)
    case _ => Unsupported
  }

  /** The reading of a frame once the extra bytes are skipped. */
  function ReadRf(b: Frame, len: nat): (r: RfReport)
    requires RfReadable(b, len)
    ensures InRange(r)
    ensures Meaningful(r) ==> 5 <= len <= 8
  {
    if len < 5 then TooShort
    else if len > 8 then TooLong
    else ReadBytes(len, b[1], b[2], b[3], b[4], b[5], if len == 8 then b[6] else 0, if len == 8 then b[7] else 0)
  }

  // ----- Radio: encoding and decoding agree -----

  /** A transmitted frame as another controller receives it: the same bytes behind 0x5D. */
  function Received(frame: Frame): Frame
    requires frame != []
  {
    [0x5D] + frame[1..]
  }

  lemma SameRead(b: Frame, c: Frame, len: nat)
    requires RfReadable(b, len) && RfReadable(c, len) && len <= 8
    requires len >= 5 ==> b[1] == c[1] && b[2] == c[2] && b[3] == c[3] && b[4] == c[4] && b[5] == c[5]
    requires len == 8 ==> b[6] == c[6] && b[7] == c[7]
    ensures ReadRf(b, len) == ReadRf(c, len)
  {
    hide ReadBytes;
  }

  lemma UnitBitsRead(h: nat, u: nat, off: bool)
    requires h < 16 && u < 16
    ensures ReadHouseUnit(RfHouseByte(h, u), RfUnitBits(u, off)) == OnOff(h, u, off)
  {
    CodesInverse(h);
    RfHouseByteIs(h, u);
    UnitBitsGathered(h, X10HouseCodeRf(h), u as byte, off, RfHouseByte(h, u), RfUnitBits(u, off));
  }

  lemma UnitBitsGathered(h: nat, code: byte, unit: byte, off: bool, house: byte, key: byte)
    requires code < 16 && unit < 16 && RfIndex(code) == h
    requires house == (code << 4) | ((unit & 0x08) >> 1)
    requires key == (if off then 0x20 else 0) | ((unit & 0x04) << 4) | ((unit & 0x02) << 2) | ((unit & 0x01) << 4)
    ensures ReadHouseUnit(house, key) == OnOff(h, unit as nat, off)
  {
    UnitBitsSpread(code, unit, if off then 0x20 else 0);
    assert (key & 0x20) >> 5 == if off then 1 else 0;
  }

  lemma RfHouseByteIs(h: nat, u: nat)
    requires h < 16 && u < 16
    ensures RfHouseByte(h, u) == (X10HouseCodeRf(h) << 4) | ((u as byte & 0x08) >> 1)
  {}

  /** Gathering the spread unit bits gives the unit back, and the key is never a dim or bright key. */
  lemma UnitBitsSpread(code: byte, unit: byte, off: byte)
    requires code < 16 && unit < 16 && off in {0, 0x20}
    ensures var house := (code << 4) | ((unit & 0x08) >> 1);
      var key := off | ((unit & 0x04) << 4) | ((unit & 0x02) << 2) | ((unit & 0x01) << 4);
      && High(house) == code
      && key != 0x88 && key != 0x98 && key & 0x20 == off
      && ((house & 0x04) << 1) | ((key & 0x40) >> 4) | ((key & 0x08) >> 2) | ((key & 0x10) >> 4) == unit
  {}

  lemma OnOffRoundTrip(h: nat, u: nat, off: bool)
    requires h < 16 && u < 16
    ensures ReadRf(RfOnOff(h, u, off), 6) == OnOff(h, u, off)
  {
    ReadRfFrame(RfHouseByte(h, u), RfUnitBits(u, off));
    UnitBitsRead(h, u, off);
  }

  lemma ReadRfFrame(house: byte, key: byte)
    ensures ReadRf(RfFrame(house, key), 6) == ReadHouseUnit(house, key)
  {
    assert house ^ !house == 0xFF && key ^ !key == 0xFF;
  }

  lemma DimBrightRoundTrip(h: nat, unit: int, bright: bool)
    requires h < 16
    ensures ReadRf(RfDimBright(h, unit, bright), 6) == DimBright(h, bright)
  {
    ReadRfFrame(RfHouseByte(h, unit), if bright then 0x88 else 0x98);
    CodesInverse(h);
    HighOfHouse(X10HouseCodeRf(h), LowByte(unit));
  }

  lemma HighOfHouse(code: byte, unit: byte)
    requires code < 16
    ensures High((code << 4) | ((unit & 0x08) >> 1)) == code
  {}

  lemma Sec8RoundTrip(addr: nat, key: byte)
    ensures ReadRf(RfSec8(addr, key), 6) == Security8(LowByte(addr), key)
  {
    var a := LowByte(addr);
    assert a ^ (a ^ 0x0F) == 0x0F && key ^ !key == 0xFF;
  }

  /** For every key code: the frame is read back iff the code names a camera key. */
  lemma CamRoundTrip(h: nat, key: byte)
    requires h < 16
    ensures ReadRf(RfCam(h, key) + [0], 5) == if IsCamKey(key) then Camera(h, key) else UnknownCamera
  {
    CodesInverse(h);
    HighOfCam(X10HouseCodeRf(h));
  }

  lemma HighOfCam(code: byte)
    requires code < 16
    ensures (code << 4) >> 4 == code
  {}

  /** The number of one bits. */
  function Ones(n: nat): nat { if n == 0 then 0 else n % 2 + Ones(n / 2) }

  predicate OddOnes(n: nat) { n != 0 && ((n % 2 == 1) != OddOnes(n / 2)) }

  lemma {:induction false} OddOnesCounts(n: nat)
    ensures OddOnes(n) <==> Ones(n) % 2 == 1
  {
    if n != 0 {
      OddOnesCounts(n / 2);
      SumParity(n % 2, Ones(n / 2));
    }
  }

  lemma SumParity(x: nat, y: nat)
    ensures (x + y) % 2 == 1 <==> (x % 2 == 1) != (y % 2 == 1)
  {}

  lemma HalfByte(b: byte)
    ensures (b >> 1) as nat == b as nat / 2 && (b & 1) as nat == b as nat % 2
    ensures Parity(b) == Parity(b >> 1) ^ (b & 1)
  {
    assert b == ((b >> 1) << 1) | (b & 1);
    var x, y := b >> 1, b & 1;
    assert x < 128 && y < 2;
    assert (x << 1) | y == 2 * x + y;
  }

  /** The lowest bit tells odd from even, and the rest is the half. */
  lemma HalfNat(b: byte)
    ensures (b >> 1) as nat == b as nat / 2 && (b & 1 == 1 <==> b as nat % 2 == 1)
  {
    HalfByte(b);
    OneByte(b & 1);
  }

  lemma OneByte(b: byte)
    ensures (b == 1 <==> b as nat == 1) && (b == 0 <==> b as nat == 0)
  {}

  lemma {:induction false} ParityIsOdd(b: byte)
    ensures Parity(b) == 1 <==> OddOnes(b as nat)
    decreases b as nat
  {
    OneByte(b);
    if b != 0 {
      HalfByte(b);
      HalfNat(b);
      ParityIsOdd(b >> 1);
    }
  }

  lemma XorHalves(a: byte, b: byte)
    ensures (a ^ b) >> 1 == (a >> 1) ^ (b >> 1)
    ensures (a ^ b) & 1 == 1 <==> (a & 1 == 1) != (b & 1 == 1)
  {}

  lemma OddOnesStep(n: nat, half: nat)
    requires half == n / 2
    ensures OddOnes(n) <==> (n % 2 == 1) != OddOnes(half)
  {}

  lemma {:induction false} OddOnesXor(a: byte, b: byte, c: byte)
    requires c == a ^ b
    ensures OddOnes(c as nat) <==> OddOnes(a as nat) != OddOnes(b as nat)
    decreases a, b
  {
    if a == 0 && b == 0 {
      assert c == 0;
    } else {
      XorHalves(a, b);
      OddOnesXor(a >> 1, b >> 1, c >> 1);
      OddOnesXorStep(a, b, c);
    }
  }

  lemma OddOnesXorStep(a: byte, b: byte, c: byte)
    requires (c & 1 == 1) <==> (a & 1 == 1) != (b & 1 == 1)
    requires OddOnes((c >> 1) as nat) <==> OddOnes((a >> 1) as nat) != OddOnes((b >> 1) as nat)
    ensures OddOnes(c as nat) <==> OddOnes(a as nat) != OddOnes(b as nat)
  {
    OddOnesOfByte(a);
    OddOnesOfByte(b);
    OddOnesOfByte(c);
  }

  lemma OddOnesOfByte(b: byte)
    ensures OddOnes(b as nat) <==> (b & 1 == 1) != OddOnes((b >> 1) as nat)
  {
    HalfNat(b);
    OddOnesStep(b as nat, (b >> 1) as nat);
  }

  lemma {:induction false} OddOnesSplit(a: nat, b: nat, p: nat)
    requires p in {1, 2, 4, 8, 16, 32, 64, 128, 256} && b < p
    ensures OddOnes(p * a + b) <==> OddOnes(a) != OddOnes(b)
    decreases p
  {
    if p > 1 {
      hide OddOnes;
      var half := p / 2;
      OddOnesSplit(a, b / 2, half);
      HalfSum(half, a, b);
      OddOnesStep(p * a + b, half * a + b / 2);
      OddOnesStep(b, b / 2);
    }
  }

  lemma HalfSum(half: nat, a: nat, b: nat)
    ensures (2 * half * a + b) / 2 == half * a + b / 2 && (2 * half * a + b) % 2 == b % 2
  {
    assert 2 * half * a == 2 * (half * a);
  }

  lemma TwoByteParity(n: nat, hi: byte, lo: byte)
    requires n == 256 * hi as nat + lo as nat
    ensures Parity(hi ^ lo) == 1 <==> Ones(n) % 2 == 1
  {
    hide Parity, OddOnes, Ones;
    ParityIsOdd(hi ^ lo);
    OddOnesXor(hi, lo, hi ^ lo);
    TwoByteOnes(n, hi as nat, lo as nat, (hi ^ lo) as nat);
  }

  lemma TwoByteOnes(n: nat, hi: nat, lo: nat, x: nat)
    requires n == 256 * hi + lo && lo < 256 && (OddOnes(x) <==> OddOnes(hi) != OddOnes(lo))
    ensures OddOnes(x) <==> Ones(n) % 2 == 1
  {
    hide OddOnes, Ones;
    OddOnesSplit(hi, lo, 256);
    OddOnesCounts(n);
  }

  lemma Mod16(x: nat, q: nat, r: nat)
    requires x == 0x1_0000 * q + r && r < 0x1_0000
    ensures x % 0x1_0000 == r && x / 0x1_0000 == q
  {}

  lemma Mod24(x: nat, q: nat, r: nat)
    requires x == 0x100_0000 * q + r && r < 0x100_0000
    ensures x % 0x100_0000 == r
  {}

  /** The low two and the low three bytes of a number. */
  lemma BytesOf(x: nat)
    ensures x % 0x1_0000 == 256 * ((x / 0x100) % 256) + x % 256
    ensures x % 0x100_0000 == 0x1_0000 * ((x / 0x1_0000) % 256) + 0x100 * ((x / 0x100) % 256) + x % 256
  {
    var y, b0 := x / 0x100, x % 0x100;
    var z, b1 := y / 0x100, y % 0x100;
    var w, b2 := z / 0x100, z % 0x100;
    assert x == 0x100 * y + b0 && y == 0x100 * z + b1 && z == 0x100 * w + b2;
    Mod16(x, z, 0x100 * b1 + b0);
    Mod24(x, w, 0x1_0000 * b2 + 0x100 * b1 + b0);
  }

  /** The transmitted parity test passes iff the low 16 bits of the address hold an even number of ones. */
  lemma AddressParity(addr: nat, hi: byte, lo: byte)
    requires hi as int == (addr / 0x100) % 256 && lo as int == addr % 256
    ensures Parity(hi ^ lo) == 0 <==> Ones(addr % 0x1_0000) % 2 == 0
  {
    BytesOf(addr);
    TwoByteParity(addr % 0x1_0000, hi, lo);
    assert Parity(hi ^ lo) < 2;
  }

  lemma ReadSec24Of(b: Frame)
    requires |b| == 8 && b[1] == 0x29 && b[2] ^ b[3] == 0x0F && b[4] ^ b[5] == 0xFF
    ensures ReadRf(b, 8) == if Parity(b[6] ^ b[7]) == 0 then Security24(b[2], b[6], b[7], b[4]) else BadParity
  {}

  lemma ReadSec24(a0: byte, a1: byte, a2: byte, key: byte)
    ensures ReadRf([0xEB, 0x29, a0, a0 ^ 0x0F, key, !key, a1, a2], 8) ==
      if Parity(a1 ^ a2) == 0 then Security24(a0, a1, a2, key) else BadParity
  {
    hide ReadRf, Parity;
    Complements(a0);
    Complements(key);
    ReadSec24Of([0xEB, 0x29, a0, a0 ^ 0x0F, key, !key, a1, a2]);
  }

  lemma Complements(b: byte)
    ensures b ^ (b ^ 0x0F) == 0x0F && b ^ !b == 0xFF
  {}

  lemma Sec24RoundTrip(addr: nat, key: byte)
    ensures ReadRf(RfSec24(addr, key), 8) ==
      if Ones(addr % 0x1_0000) % 2 == 0
      then Security24(LowByte(addr / 0x1_0000), LowByte(addr / 0x100), LowByte(addr), key) else BadParity
  {
    var a0, a1, a2 := LowByte(addr / 0x1_0000), LowByte(addr / 0x100), LowByte(addr);
    LowByteValue(addr / 0x100);
    LowByteValue(addr);
    ReadSec24(a0, a1, a2, key);
    AddressParity(addr, a1, a2);
    assert RfSec24(addr, key) == [0xEB, 0x29, a0, a0 ^ 0x0F, key, !key, a1, a2];
  }

  /** The three address bytes are the address modulo 2^24. */
  lemma AddressBytes(addr: nat)
    ensures 0x1_0000 * LowByte(addr / 0x1_0000) as nat + 0x100 * LowByte(addr / 0x100) as nat + LowByte(addr) as nat
         == addr % 0x100_0000
  {
    LowByteValue(addr / 0x1_0000);
    LowByteValue(addr / 0x100);
    LowByteValue(addr);
    BytesOf(addr);
  }

  function Repeat(b: byte, k: nat): (s: Frame)
    ensures |s| == k
  {
    seq(k, _ => b)
  }

  /** Any number of extra leading 0x5D bytes is skipped. */
  lemma {:induction false} ExtraBytesSkipped(k: nat, frame: Frame, len: nat)
    requires frame != [] && frame[0] == 0x5D
    ensures ExtraBytes(Repeat(0x5D, k) + frame, k + len) == k + ExtraBytes(frame, len)
    ensures (Repeat(0x5D, k) + frame)[k + ExtraBytes(frame, len)..] == frame[ExtraBytes(frame, len)..]
    decreases k
  {
    if k == 0 {
      assert Repeat(0x5D, 0) + frame == frame;
    } else {
      assert (Repeat(0x5D, k) + frame)[1..] == Repeat(0x5D, k - 1) + frame;
      ExtraBytesSkipped(k - 1, frame, len);
    }
  }
}
