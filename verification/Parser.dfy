/** The word-by-word readers of encode.c, which take their words from strtok. */
module Parser {
  import opened Common
  import opened Text
  import opened Codes
  import opened Frames
  import opened Commands

  function Tail(ts: seq<string>): seq<string> { if ts == [] then [] else ts[1..] }

  method GetDeviceAddr(tok: StrTok) returns (house: int, unit: int)
    requires tok.Valid()
    modifies tok, tok.buf
    ensures tok.Valid() && tok.buf == old(tok.buf) && tok.rest == Tail(old(tok.rest))
    ensures (house, unit) == ParseAddr(Arg(old(tok.rest), 0))
  {
    hide ParseAddr;
    if Arg(tok.rest, 0) == None || |Arg(tok.rest, 0).value| > 3 { NoDeviceAddr(Arg(tok.rest, 0)); }
    house, unit := -1, -1;
    var parm := tok.Next();
    if parm == None || |parm.value| > 3 {
      return;
    }
    house, unit := DeviceAddr(parm.value);
  }

  lemma NoDeviceAddr(t: Option<string>)
    requires t == None || |t.value| > 3
    ensures ParseAddr(t) == (-1, -1)
  {}

  /** The house letter and the one or two digits behind it. */
  method DeviceAddr(w: string) returns (house: int, unit: int)
    requires |w| <= 3
    ensures (house, unit) == ParseAddr(Some(w))
  {
    house, unit := -1, -1;
    if !IsHouse(CharAt(w, 0)) {
      return;
    }
    house := HouseIndex(w[0]);
    if !IsDigit(CharAt(w, 1)) {
      return;
    }
    unit := DigitValue(w[1]);
    if !IsDigit(CharAt(w, 2)) {
      unit := unit - 1;
      return;
    }
    unit := unit * 10 + DigitValue(w[2]);
    if unit > 16 {
      unit := -1;
      return;
    }
    unit := unit - 1;
  }

  method GetFunc(tok: StrTok) returns (func: int)
    requires tok.Valid()
    modifies tok, tok.buf
    ensures tok.Valid() && tok.buf == old(tok.buf) && tok.rest == Tail(old(tok.rest))
    ensures func == ParseFunc(Arg(old(tok.rest), 0))
  {
    var command := tok.Next();
    if command == None {
      return -1;
    }
    func := LookUpFunc(command.value);
  }

  method LookUpFunc(command: string) returns (func: int)
    ensures func == FindFunc(command, 0)
  {
    for i := 0 to FUNCS
      invariant FindFunc(command, 0) == FindFunc(command, i)
    {
      if command == FuncCommand(i) {
        return i;
      }
    }
    return -1;
  }

  /** A device address and, if there is one, the function after it. */
  method GetTarget(tok: StrTok) returns (house: int, unit: int, func: int)
    requires tok.Valid()
    modifies tok, tok.buf
    ensures tok.Valid() && tok.buf == old(tok.buf)
    ensures (house, unit) == ParseAddr(Arg(old(tok.rest), 0))
    ensures house >= 0 ==> func == ParseFunc(Arg(old(tok.rest), 1)) && tok.rest == Tail(Tail(old(tok.rest)))
    ensures -1 <= func < FUNCS
  {
    func := -1;
    house, unit := GetDeviceAddr(tok);
    if house >= 0 {
      func := GetFunc(tok);
    }
  }

  method GetRfFunc(tok: StrTok, rf8: bool) returns (func: Option<byte>)
    requires tok.Valid()
    modifies tok, tok.buf
    ensures tok.Valid() && tok.buf == old(tok.buf) && tok.rest == Tail(old(tok.rest))
    ensures func == if old(tok.rest) == [] then None else FindSec(rf8, old(tok.rest)[0], 0)
  {
    var command := tok.Next();
    if command == None {
      return None;
    }
    for i := 0 to SecEntries(rf8)
      invariant FindSec(rf8, command.value, 0) == FindSec(rf8, command.value, i)
    {
      if command.value == SecEntry(rf8, i).1 {
        return Some(SecEntry(rf8, i).0);
      }
    }
    return None;
  }

  method GetParam(tok: StrTok) returns (param: int)
    requires tok.Valid()
    modifies tok, tok.buf
    ensures tok.Valid() && tok.buf == old(tok.buf) && tok.rest == Tail(old(tok.rest))
    ensures param == ParseParam(Arg(old(tok.rest), 0))
  {
    var p := tok.Next();
    if p == None {
      return -1;
    }
    return ToInt32(StrToNumber(p.value, 10));
  }

  method GetThreeParams(tok: StrTok) returns (p: int, q: int, r: int)
    requires tok.Valid()
    modifies tok, tok.buf
    ensures p == ParseParam(Arg(old(tok.rest), 0))
    ensures q == ParseParam(Arg(old(tok.rest), 1))
    ensures r == ParseParam(Arg(old(tok.rest), 2))
  {
    p := GetParam(tok);
    q := GetParam(tok);
    r := GetParam(tok);
  }

  method GetRfAddr(tok: StrTok) returns (found: bool, rf8: bool, addr: nat)
    requires tok.Valid()
    modifies tok, tok.buf
    ensures tok.Valid() && tok.buf == old(tok.buf) && tok.rest == Tail(old(tok.rest))
    ensures found == (old(tok.rest) != [])
    ensures found ==> (rf8, addr) == ParseRfAddr(old(tok.rest)[0])
  {
    var parm := tok.Next();
    if parm == None {
      return false, false, 0;
    }
    if HasHexPrefix(parm.value) {
      return true, true, Wrap64(StrToNumber(parm.value[2..], 16));
    }
    return true, false, Wrap64(StrToNumber(parm.value, 16));
  }

  method GetHouseCodes(tok: StrTok) returns (rc: bv16)
    requires tok.Valid()
    modifies tok, tok.buf
    ensures tok.Valid() && tok.buf == old(tok.buf) && tok.rest == Tail(old(tok.rest))
    ensures rc == HouseMask(Arg(old(tok.rest), 0))
  {
    rc := 0;
    var parm := tok.Next();
    if parm != None {
      rc := HouseCodes(parm.value);
    }
  }

  method HouseCodes(w: string) returns (rc: bv16)
    ensures rc == HouseMask(Some(w))
  {
    rc := 0;
    if w == "*" {
      return 0xFFFF;
    }
    for i := 0 to |w|
      invariant rc == LetterBits(w[..i])
    {
      assert w[..i + 1][..i] == w[..i];
      if IsHouse(w[i]) {
        rc := rc | HouseBit(HouseIndex(w[i]));
      }
    }
    assert w[..|w|] == w;
  }

  method GetHexData(tok: StrTok) returns (data: Frame)
    requires tok.Valid()
    modifies tok, tok.buf
    ensures data == HexBytes(old(tok.rest))
  {
    data := GetData(tok, HexByte);
  }

  /** Reads up to eight words into a buffer. */
  method GetData(tok: StrTok, f: string -> byte) returns (data: Frame)
    requires tok.Valid()
    modifies tok, tok.buf
    ensures data == Convert(f, old(tok.rest), 8)
  {
    data := [];
    ConvertStart(f, tok.rest);
    while true
      modifies tok, tok.buf
      invariant tok.Valid() && tok.buf == old(tok.buf)
      invariant Converted(f, old(tok.rest), tok.rest, data)
      decreases |tok.rest|
    {
      ConvertStep(f, old(tok.rest), tok.rest, data);
      var parm := tok.Next();
      if parm == None || |data| == 8 {
        return;
      }
      data := data + [f(parm.value)];
    }
  }

  /** The words before left are converted into data. */
  ghost predicate Converted(f: string -> byte, all: seq<string>, left: seq<string>, data: Frame) {
    |data| <= 8 && data + Convert(f, left, 8 - |data|) == Convert(f, all, 8)
  }

  lemma ConvertStart(f: string -> byte, all: seq<string>)
    ensures Converted(f, all, all, [])
  {
    assert [] + Convert(f, all, 8) == Convert(f, all, 8);
  }

  lemma ConvertStep(f: string -> byte, all: seq<string>, left: seq<string>, data: Frame)
    requires Converted(f, all, left, data)
    ensures if left == [] || |data| == 8 then data == Convert(f, all, 8)
            else Converted(f, all, left[1..], data + [f(left[0])])
  {
    ConvertNext(f, left, 8 - |data|);
    hide Convert;
    if left == [] || |data| == 8 {
      assert data + [] == data;
    } else {
      Regroup(data, f(left[0]), Convert(f, left[1..], 7 - |data|));
    }
  }

  lemma Regroup(a: Frame, b: byte, c: Frame)
    ensures a + ([b] + c) == a + [b] + c
  {}

  lemma ConvertNext(f: string -> byte, ts: seq<string>, n: nat)
    ensures Convert(f, ts, n) == if ts == [] || n == 0 then [] else [f(ts[0])] + Convert(f, ts[1..], n - 1)
  {
  }

  method FindCamRemoteCommand(keyname: string) returns (i: int)
    ensures i == FindCam(keyname, 0)
  {
    for k := 0 to CAM_KEYS
      invariant FindCam(keyname, 0) == FindCam(keyname, k)
    {
      if CamKey(k) == Some(keyname) {
        return k;
      }
    }
    return -1;
  }
}
