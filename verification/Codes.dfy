/** The code and name tables of encode.c and decode.c. */
module Codes {
  import opened Common
  import opened Text

  // ----- House and unit codes -----

  /** The nibble transmitted for house 'A' + n, or for unit n + 1, on the power line. */
  function X10HouseCode(n: nat): byte
    requires n < 16
  {
    [0x06, 0x0e, 0x02, 0x0a, 0x01, 0x09, 0x05, 0x0d, 0x07, 0x0f, 0x03, 0x0b, 0x00, 0x08, 0x04, 0x0c][n]
  }

  /** The nibble transmitted for house 'A' + n by radio. */
  function X10HouseCodeRf(n: nat): byte
    requires n < 16
  {
    [0x06, 0x07, 0x04, 0x05, 0x08, 0x09, 0x0a, 0x0b, 0x0e, 0x0f, 0x0c, 0x0d, 0x00, 0x01, 0x02, 0x03][n]
  }

  function HouseUnitTable(code: byte): char
    requires code < 16
  {
    "MECKOGAINFDLPHBJ"[code as nat]
  }

  function HouseUnitTableRf(code: byte): char
    requires code < 16
  {
    "MNOPCDABEFGHKLIJ"[code as nat]
  }

  predicate IsHouse(c: char) { 'A' <= c <= 'P' }

  function HouseIndex(c: char): (h: nat)
    requires IsHouse(c)
    ensures h < 16
  {
    c as nat - 'A' as nat
  }

  function HouseChar(h: nat): (c: char)
    requires h < 16
    ensures IsHouse(c) && HouseIndex(c) == h
  {
    ('A' as int + h) as char
  }

  lemma TablesHoldHouses(code: byte)
    requires code < 16
    ensures IsHouse(HouseUnitTable(code)) && IsHouse(HouseUnitTableRf(code))
  {}

  function High(b: byte): (n: byte)
    ensures n < 16
  {
    (b & 0xF0) >> 4
  }

  function Low(b: byte): (n: byte)
    ensures n < 16
  {
    b & 0x0F
  }

  /** Decoding a power-line nibble: the index of the house letter, or the unit number less one. */
  function PlIndex(code: byte): (n: nat)
    requires code < 16
    ensures n < 16
  {
    TablesHoldHouses(code);
    HouseIndex(HouseUnitTable(code))
  }

  function RfIndex(code: byte): (n: nat)
    requires code < 16
    ensures n < 16
  {
    TablesHoldHouses(code);
    HouseIndex(HouseUnitTableRf(code))
  }

  /** Both tables invert the encoder's, in both directions. */
  lemma CodesInverse(n: nat)
    requires n < 16
    ensures X10HouseCode(n) < 16 && PlIndex(X10HouseCode(n)) == n
    ensures X10HouseCodeRf(n) < 16 && RfIndex(X10HouseCodeRf(n)) == n
  {
    hide X10HouseCode, X10HouseCodeRf, PlIndex, RfIndex;
    PlCodesInverse(n);
    RfCodesInverse(n);
  }

  lemma PlCodesInverse(n: nat)
    requires n < 16
    ensures X10HouseCode(n) < 16 && PlIndex(X10HouseCode(n)) == n
  {}

  lemma RfCodesInverse(n: nat)
    requires n < 16
    ensures X10HouseCodeRf(n) < 16 && RfIndex(X10HouseCodeRf(n)) == n
  {}

  lemma CodesInverseBack(code: byte)
    requires code < 16
    ensures X10HouseCode(PlIndex(code)) == code && X10HouseCodeRf(RfIndex(code)) == code
  {
    hide X10HouseCode, X10HouseCodeRf, PlIndex, RfIndex;
    PlCodesInverseBack(code);
    RfCodesInverseBack(code);
  }

  lemma PlCodesInverseBack(code: byte)
    requires code < 16
    ensures X10HouseCode(PlIndex(code)) == code
  {}

  lemma RfCodesInverseBack(code: byte)
    requires code < 16
    ensures X10HouseCodeRf(RfIndex(code)) == code
  {}

  // ----- Function names -----

  const FUNC_ON: nat := 2
  const FUNC_OFF: nat := 3
  const FUNC_DIM: nat := 4
  const FUNC_BRIGHT: nat := 5
  const FUNC_EXTENDED_CODE_1: nat := 7
  const FUNC_EXTENDED_DIM: nat := 16
  const FUNCS: nat := 17

  /** The names the parser knows functions by. */
  function FuncCommand(i: nat): string {
    match i
    case 0 => "ALL_UNITS_OFF"
    case 1 => "ALL_LIGHTS_ON"
    case 2 => "ON"
    case 3 => "OFF"
    case 4 => "DIM"
    case 5 => "BRIGHT"
    case 6 => "ALL_LIGHTS_OFF"
    case 7 => "EXTENDED_CODE_1"
    case 8 => "HAIL_REQUEST"
    case 9 => "HAIL_ACK"
    case 10 => "EXTENDED_CODE_3"
    case 11 => "UNUSED"
    case 12 => "EXTENDED_CODE_2"
    case 13 => "STATUS_ON"
    case 14 => "STATUS_OFF"
    case 15 => "STATUS_REQUEST"
    case _ => "XDIM"
  }

  /** The names the decoder prints functions with; only those of On, Off, Dim and Bright reach a printed command line. */
  function FuncName(i: nat): string {
    match i
    case 0 => "All units off"
    case 1 => "All lights on"
    case 2 => "On"
    case 3 => "Off"
    case 4 => "Dim"
    case 5 => "Bright"
    case 6 => "All lights off"
    case 7 => "Ext code 1, data, control"
    case 8 => "Hail request"
    case 9 => "Hail ack"
    case 10 => "Ext code 3, security msg"
    case 11 => "Unused"
    case 12 => "Ext code 2, meter read, DSM"
    case 13 => "Status on"
    case 14 => "Status off"
    case _ => "Status request"
  }

  /** The index of the first name from i on that equals the word, or -1. */
  function FindFunc(w: string, i: nat): (k: int)
    requires i <= FUNCS
    ensures -1 <= k < FUNCS
    ensures k >= 0 ==> FuncCommand(k) == w
    decreases FUNCS - i
  {
    if i == FUNCS then -1 else if FuncCommand(i) == w then i else FindFunc(w, i + 1)
  }

  /** The name printed for On, Off, Dim and Bright is parsed back to the same function. */
  lemma PrintedFuncParses(f: nat)
    requires 2 <= f <= 5
    ensures FindFunc(Upper(FuncName(f)), 0) == f
    ensures IsWord(FuncName(f))
  {
    var w := Upper(FuncName(f));
    assert w == FuncCommand(f) by {
      assert |w| == |FuncCommand(f)|;
      assert forall i :: 0 <= i < |w| ==> w[i] == UpperChar(FuncName(f)[i]) == FuncCommand(f)[i];
    }
    assert FindFunc(w, f) == f;
    if f == 5 { assert FindFunc(w, 4) == 5; }
    if f >= 4 { assert FuncCommand(3)[0] == 'O'; assert FindFunc(w, 3) == f; }
    if f >= 3 { assert FindFunc(w, 2) == f; }
    assert FindFunc(w, 1) == f;
  }

  /** The security functions with long addresses, as (code, name). */
  function LongEvent(i: nat): (byte, string) {
    match i
    case 0 => (0x0C, "MOTION_ALERT")
    case 1 => (0x8C, "MOTION_NORMAL")
    case 2 => (0x0D, "MOTION_ALERT_LOW")
    case 3 => (0x8D, "MOTION_NORMAL_LOW")
    case 4 => (0x04, "CONTACT_ALERT_MIN")
    case 5 => (0x84, "CONTACT_NORMAL_MIN")
    case 6 => (0x00, "CONTACT_ALERT_MAX")
    case 7 => (0x80, "CONTACT_NORMAL_MAX")
    case 8 => (0x01, "CONTACT_ALERT_MIN_LOW")
    case 9 => (0x81, "CONTACT_NORMAL_MIN_LOW")
    case 10 => (0x05, "CONTACT_ALERT_MAX_LOW")
    case 11 => (0x85, "CONTACT_NORMAL_MAX_LOW")
    case 12 => (0x06, "ARM")
    case 13 => (0x86, "DISARM")
    case 14 => (0x46, "LIGHTS_ON")
    case 15 => (0xC6, "LIGHTS_OFF")
    case _ => (0x26, "PANIC")
  }

  /** The remote-control keys with 8-bit addresses, as (code, name). */
  function RemoteKey(i: nat): (byte, string) {
    match i
    case 0 => (0x06, "ARM")
    case 1 => (0x0E, "ARM_HOME_MIN")
    case 2 => (0x06, "ARM_AWAY_MIN")
    case 3 => (0x0A, "ARM_HOME_MAX")
    case 4 => (0x02, "ARM_AWAY_MAX")
    case 5 => (0x82, "DISARM")
    case 6 => (0x22, "PANIC")
    case 7 => (0x42, "LIGHTS_ON")
    case _ => (0xC2, "LIGHTS_OFF")
  }

  function SecEntry(rf8: bool, i: nat): (byte, string) { if rf8 then RemoteKey(i) else LongEvent(i) }

  function SecEntries(rf8: bool): nat { if rf8 then 9 else 17 }

  /** The code of the first security function from i on with this name. */
  function FindSec(rf8: bool, w: string, i: nat): Option<byte>
    requires i <= SecEntries(rf8)
    decreases SecEntries(rf8) - i
  {
    if i == SecEntries(rf8) then None
    else if SecEntry(rf8, i).1 == w then Some(SecEntry(rf8, i).0)
    else FindSec(rf8, w, i + 1)
  }

  // ----- Camera keys -----

  const CAM_KEYS: nat := 27

  /** The name of camera key code 0x54 + i; three codes of the range are unused. */
  function CamKey(i: nat): Option<string> {
    match i
    case 0 => Some("CAMPRESET5")
    case 1 => Some("CAMEDITPRESET5")
    case 2 => Some("CAMPRESET6")
    case 3 => Some("CAMEDITPRESET6")
    case 4 => Some("CAMPRESET7")
    case 5 => Some("CAMEDITPRESET7")
    case 6 => Some("CAMPRESET8")
    case 7 => Some("CAMEDITPRESET8")
    case 8 => Some("CAMPRESET9")
    case 9 => Some("CAMEDITPRESET9")
    case 12 => Some("CAMLEFT")
    case 13 => Some("CAMRIGHT")
    case 14 => Some("CAMUP")
    case 15 => Some("CAMDOWN")
    case 16 => Some("CAMPRESET1")
    case 17 => Some("CAMEDITPRESET1")
    case 18 => Some("CAMPRESET2")
    case 19 => Some("CAMEDITPRESET2")
    case 20 => Some("CAMPRESET3")
    case 21 => Some("CAMEDITPRESET3")
    case 22 => Some("CAMPRESET4")
    case 23 => Some("CAMEDITPRESET4")
    case 24 => Some("CAMCENTER")
    case 26 => Some("CAMSWEEP")
    case _ => None
  }

  function CamCode(i: nat): byte
    requires i < CAM_KEYS
  {
    (0x54 + i) as byte
  }

  /** The index of the first camera key from i on with this name, or -1. */
  function FindCam(w: string, i: nat): (k: int)
    requires i <= CAM_KEYS
    ensures -1 <= k < CAM_KEYS
    ensures k >= 0 ==> CamKey(k) == Some(w)
    decreases CAM_KEYS - i
  {
    if i == CAM_KEYS then -1 else if CamKey(i) == Some(w) then i else FindCam(w, i + 1)
  }

  /** The index of a key code in the table of camera keys. */
  function CamIndex(key: byte): nat
    requires 0x54 <= key
  {
    key as nat - 0x54
  }

  /** The codes that name a camera key. */
  predicate IsCamKey(key: byte) { 0x54 <= key && CamKey(CamIndex(key)).Some? }

  lemma CamCodeIndex(i: nat)
    requires i < CAM_KEYS
    ensures 0x54 <= CamCode(i) && CamIndex(CamCode(i)) == i
  {
    ByteBack(0x54 + i);
    var code: byte := CamCode(i);
    assert code as nat == 0x54 + i;
  }
}
