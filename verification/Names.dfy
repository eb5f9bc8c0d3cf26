/** The names and numbers of command lines, stated on the literal words. */
module Names {
  import opened Common
  import opened Text
  import opened Codes
  import opened Frames
  import opened Commands
  import HexDump

  // ----- Functions -----

  /** A printed name as a word of a command line: in capitals, with underscores for spaces. */
  function AsWord(name: string): (w: string)
    ensures |w| == |name|
    ensures forall i :: 0 <= i < |name| ==> w[i] == if name[i] == ' ' then '_' else UpperChar(name[i])
  {
    seq(|name|, i requires 0 <= i < |name| => if name[i] == ' ' then '_' else UpperChar(name[i]))
  }

  /** The parser knows each function by the name the decoder prints for its code; the extended codes are numbered as in
      the printed names. */
  lemma FunctionNames(f: nat)
    requires f < 16
    ensures FuncCommand(f) ==
      if f in {7, 10, 12} then "EXTENDED_CODE_" + [FuncName(f)[9]] else AsWord(FuncName(f))
    ensures FuncCommand(16) == "XDIM"
  {
    hide AsWord;
    if f < 4 { NamesTo4(f); } else if f < 9 { NamesTo9(f); } else if f < 13 { NamesTo13(f); } else { NamesTo16(f); }
  }

  lemma NamesTo4(f: nat)
    requires f < 4
    ensures FuncCommand(f) == AsWord(FuncName(f))
  {
    assert |FuncCommand(f)| == |FuncName(f)|;
  }

  lemma NamesTo9(f: nat)
    requires 4 <= f < 9
    ensures FuncCommand(f) == if f == 7 then "EXTENDED_CODE_" + [FuncName(f)[9]] else AsWord(FuncName(f))
  {
    assert f != 7 ==> |FuncCommand(f)| == |FuncName(f)|;
  }

  lemma NamesTo13(f: nat)
    requires 9 <= f < 13
    ensures FuncCommand(f) == if f == 10 || f == 12 then "EXTENDED_CODE_" + [FuncName(f)[9]] else AsWord(FuncName(f))
  {
    assert f == 9 || f == 11 ==> |FuncCommand(f)| == |FuncName(f)|;
  }

  lemma NamesTo16(f: nat)
    requires 13 <= f < 16
    ensures FuncCommand(f) == AsWord(FuncName(f))
  {
    assert |FuncCommand(f)| == |FuncName(f)|;
  }

  lemma FunctionsDiffer(f: nat, g: nat)
    requires f < g < FUNCS
    ensures FuncCommand(f) != FuncCommand(g)
  {
    var v, w := FuncCommand(f), FuncCommand(g);
    if |v| == |w| {
      assert v[0] != w[0] || v[|v| - 1] != w[|w| - 1];
    }
  }

  /** Each name is read as its code. */
  lemma {:induction false} FunctionFound(f: nat, i: nat)
    requires i <= f < FUNCS
    ensures FindFunc(FuncCommand(f), i) == f
    decreases f - i
  {
    hide FuncCommand;
    if i < f {
      FunctionsDiffer(i, f);
      FunctionFound(f, i + 1);
    }
  }

  // ----- Security functions -----

  lemma LongEventsDiffer(i: nat, j: nat)
    requires i < j < 17
    ensures LongEvent(i).1 != LongEvent(j).1
  {
    var v, w := LongEvent(i).1, LongEvent(j).1;
    if |v| == |w| {
      assert |v| >= 17;
      assert v[0] != w[0] || v[|v| - 1] != w[|w| - 1] || v[|v| - 5] != w[|w| - 5];
    }
  }

  lemma RemoteKeysDiffer(i: nat, j: nat)
    requires i < j < 9
    ensures RemoteKey(i).1 != RemoteKey(j).1
  {
    var v, w := RemoteKey(i).1, RemoteKey(j).1;
    if |v| == |w| {
      assert |v| == 12;
      assert v[4] != w[4] || v[|v| - 1] != w[|w| - 1];
    }
  }

  /** Each security name is read as its code. */
  lemma {:induction false} SecurityFound(rf8: bool, f: nat, i: nat)
    requires i <= f < SecEntries(rf8)
    ensures FindSec(rf8, SecEntry(rf8, f).1, i) == Some(SecEntry(rf8, f).0)
    decreases f - i
  {
    hide LongEvent, RemoteKey;
    if i < f {
      if rf8 { RemoteKeysDiffer(i, f); } else { LongEventsDiffer(i, f); }
      SecurityFound(rf8, f, i + 1);
    }
  }

  /** The keys of motion sensors: bit 7 is "normal", bit 0 a low battery. */
  lemma MotionKeys()
    ensures FindSec(false, "MOTION_ALERT", 0) == Some(0x0C) && FindSec(false, "MOTION_NORMAL", 0) == Some(0x8C)
    ensures FindSec(false, "MOTION_ALERT_LOW", 0) == Some(0x0D) && FindSec(false, "MOTION_NORMAL_LOW", 0) == Some(0x8D)
  {
    hide FindSec;
    SecurityFound(false, 0, 0);
    SecurityFound(false, 1, 0);
    SecurityFound(false, 2, 0);
    SecurityFound(false, 3, 0);
  }

  /** The keys of contact sensors: bit 7 is "normal". */
  lemma ContactKeys()
    ensures FindSec(false, "CONTACT_ALERT_MIN", 0) == Some(0x04) && FindSec(false, "CONTACT_NORMAL_MIN", 0) == Some(0x84)
    ensures FindSec(false, "CONTACT_ALERT_MAX", 0) == Some(0x00) && FindSec(false, "CONTACT_NORMAL_MAX", 0) == Some(0x80)
  {
    hide FindSec;
    SecurityFound(false, 4, 0);
    SecurityFound(false, 5, 0);
    SecurityFound(false, 6, 0);
    SecurityFound(false, 7, 0);
  }

  lemma LowContactKeys()
    ensures FindSec(false, "CONTACT_ALERT_MIN_LOW", 0) == Some(0x01)
    ensures FindSec(false, "CONTACT_NORMAL_MIN_LOW", 0) == Some(0x81)
    ensures FindSec(false, "CONTACT_ALERT_MAX_LOW", 0) == Some(0x05)
    ensures FindSec(false, "CONTACT_NORMAL_MAX_LOW", 0) == Some(0x85)
  {
    hide FindSec;
    SecurityFound(false, 8, 0);
    SecurityFound(false, 9, 0);
    SecurityFound(false, 10, 0);
    SecurityFound(false, 11, 0);
  }

  lemma ConsoleKeys()
    ensures FindSec(false, "ARM", 0) == Some(0x06) && FindSec(false, "DISARM", 0) == Some(0x86)
    ensures FindSec(false, "LIGHTS_ON", 0) == Some(0x46) && FindSec(false, "LIGHTS_OFF", 0) == Some(0xC6)
    ensures FindSec(false, "PANIC", 0) == Some(0x26)
  {
    hide FindSec;
    SecurityFound(false, 12, 0);
    SecurityFound(false, 13, 0);
    SecurityFound(false, 14, 0);
    SecurityFound(false, 15, 0);
    SecurityFound(false, 16, 0);
  }

  /** The keys of remote controls with 8-bit addresses. */
  lemma ArmingKeys()
    ensures FindSec(true, "ARM", 0) == Some(0x06) && FindSec(true, "ARM_AWAY_MIN", 0) == Some(0x06)
    ensures FindSec(true, "ARM_HOME_MIN", 0) == Some(0x0E) && FindSec(true, "ARM_HOME_MAX", 0) == Some(0x0A)
    ensures FindSec(true, "ARM_AWAY_MAX", 0) == Some(0x02)
  {
    hide FindSec;
    SecurityFound(true, 0, 0);
    SecurityFound(true, 1, 0);
    SecurityFound(true, 2, 0);
    SecurityFound(true, 3, 0);
    SecurityFound(true, 4, 0);
  }

  lemma RemoteKeys()
    ensures FindSec(true, "DISARM", 0) == Some(0x82) && FindSec(true, "PANIC", 0) == Some(0x22)
    ensures FindSec(true, "LIGHTS_ON", 0) == Some(0x42) && FindSec(true, "LIGHTS_OFF", 0) == Some(0xC2)
  {
    hide FindSec;
    SecurityFound(true, 5, 0);
    SecurityFound(true, 6, 0);
    SecurityFound(true, 7, 0);
    SecurityFound(true, 8, 0);
  }

  /** The name of an alert of a motion or contact sensor. */
  predicate IsAlertName(w: string) { "MOTION_ALERT" <= w || "CONTACT_ALERT" <= w }

  /** Among the names for long addresses, the alerts are those whose key an alerting sensor sends: bit 7 clear, and a
      motion or contact key in the low seven bits. */
  lemma AlertNames(w: string)
    ensures FindSec(false, w, 0).Some? ==>
      (IsAlertName(w) <==> FindSec(false, w, 0).value in {0x00, 0x01, 0x04, 0x05, 0x0C, 0x0D})
  {
    hide LongEvent, IsAlertName;
    if FindSec(false, w, 0).Some? {
      var i := LongIndex(w, 0);
      AlertEntry(i);
    }
  }

  lemma {:induction false} LongIndex(w: string, i: nat) returns (k: nat)
    requires i <= 17 && FindSec(false, w, i).Some?
    ensures k < 17 && LongEvent(k).1 == w && FindSec(false, w, i) == Some(LongEvent(k).0)
    decreases 17 - i
  {
    hide LongEvent;
    if LongEvent(i).1 == w { k := i; } else { k := LongIndex(w, i + 1); }
  }

  lemma AlertEntry(i: nat)
    requires i < 17
    ensures IsAlertName(LongEvent(i).1) <==> LongEvent(i).0 in {0x00, 0x01, 0x04, 0x05, 0x0C, 0x0D}
  {
    var w := LongEvent(i).1;
    if i in {0, 2} { assert w[..12] == "MOTION_ALERT"; }
    if i in {4, 6, 8, 10} { assert w[..13] == "CONTACT_ALERT"; }
    if i in {1, 3} { assert w[7] == 'N'; }
    if i in {5, 7, 9, 11} { assert w[8] == 'N'; }
    if i >= 12 { assert |w| <= 10; }
  }

  /** No name for an 8-bit address has the key of an alert. */
  lemma {:induction false} NoShortAlert(w: string, i: nat)
    requires i <= 9
    ensures FindSec(true, w, i) != Some(0x04)
    decreases 9 - i
  {
    hide RemoteKey;
    if i < 9 {
      RemoteCode(i);
      NoShortAlert(w, i + 1);
    }
  }

  lemma RemoteCode(i: nat)
    requires i < 9
    ensures RemoteKey(i).0 != 0x04
  {}

  // ----- Camera keys -----

  lemma CameraKeysDiffer(i: nat, j: nat)
    requires i < j < CAM_KEYS && CamKey(i).Some? && CamKey(j).Some?
    ensures CamKey(i).value != CamKey(j).value
  {
    var v, w := CamKey(i).value, CamKey(j).value;
    if |v| == |w| {
      assert |v| >= 5;
      assert v[3] != w[3] || v[4] != w[4] || v[|v| - 1] != w[|w| - 1];
    }
  }

  lemma {:induction false} CameraKeyFound(f: nat, i: nat)
    requires i <= f < CAM_KEYS && CamKey(f).Some?
    ensures FindCam(CamKey(f).value, i) == f
    decreases f - i
  {
    hide CamKey;
    if i < f {
      if CamKey(i).Some? { CameraKeysDiffer(i, f); }
      CameraKeyFound(f, i + 1);
    }
  }

  /** The preset numbered d has two keys, to go there and to set it: 0x64 and 0x65 for preset 1, two more for each up to
      4; 0x54 and 0x55 for preset 5, two more for each up to 9. */
  lemma PresetKeys(d: nat)
    requires 1 <= d <= 9
    ensures var k := (if d < 5 then 0x62 else 0x4A) + 2 * d;
      && FindCam("CAMPRESET" + Decimal(d), 0) == k - 0x54
      && FindCam("CAMEDITPRESET" + Decimal(d), 0) == k + 1 - 0x54
  {
    hide FindCam;
    var f := if d < 5 then 14 + 2 * d else 2 * d - 10;
    PresetNames(d);
    CameraKeyFound(f, 0);
    CameraKeyFound(f + 1, 0);
  }

  lemma PresetNames(d: nat)
    requires 1 <= d <= 9
    ensures var f := if d < 5 then 14 + 2 * d else 2 * d - 10;
      CamKey(f) == Some("CAMPRESET" + Decimal(d)) && CamKey(f + 1) == Some("CAMEDITPRESET" + Decimal(d))
  {
    var f := if d < 5 then 14 + 2 * d else 2 * d - 10;
    assert Decimal(d) == [('0' as int + d) as char];
    assert CamKey(f).value == "CAMPRESET" + Decimal(d);
    assert CamKey(f + 1).value == "CAMEDITPRESET" + Decimal(d);
  }

  lemma MoveKeys()
    ensures FindCam("CAMLEFT", 0) == 0x60 - 0x54 && FindCam("CAMRIGHT", 0) == 0x61 - 0x54
    ensures FindCam("CAMUP", 0) == 0x62 - 0x54 && FindCam("CAMDOWN", 0) == 0x63 - 0x54
    ensures FindCam("CAMCENTER", 0) == 0x6C - 0x54 && FindCam("CAMSWEEP", 0) == 0x6E - 0x54
  {
    hide FindCam;
    CameraKeyFound(12, 0);
    CameraKeyFound(13, 0);
    CameraKeyFound(14, 0);
    CameraKeyFound(15, 0);
    CameraKeyFound(24, 0);
    CameraKeyFound(26, 0);
  }

  // ----- Numbers -----

  predicate Digits(s: string, radix: nat) { forall i :: 0 <= i < |s| ==> DigitValue(s[i]) < radix }

  lemma {:induction false} MagnitudeConcat(s: string, t: string, radix: nat, acc: nat)
    requires Digits(s, radix)
    ensures Magnitude(s + t, radix, acc) == Magnitude(t, radix, Magnitude(s, radix, acc))
    decreases |s|
  {
    if s == "" {
      assert s + t == t;
    } else {
      assert (s + t)[1..] == s[1..] + t;
      MagnitudeConcat(s[1..], t, radix, acc * radix + DigitValue(s[0]));
    }
  }

  lemma OneDigitMagnitude(c: char, radix: nat, acc: nat)
    requires DigitValue(c) < radix
    ensures Magnitude([c], radix, acc) == acc * radix + DigitValue(c)
  {
    assert [c][1..] == "";
  }

  lemma {:induction false} DecimalMagnitude(n: nat)
    ensures Digits(Decimal(n), 10) && Decimal(n) != "" && '0' <= Decimal(n)[0] <= '9'
    ensures Magnitude(Decimal(n), 10, 0) == n
    decreases n
  {
    var c := ('0' as int + n % 10) as char;
    assert DigitValue(c) == n % 10;
    if n < 10 {
      OneDigitMagnitude(c, 10, 0);
    } else {
      DecimalMagnitude(n / 10);
      MagnitudeConcat(Decimal(n / 10), [c], 10, 0);
      OneDigitMagnitude(c, 10, n / 10);
    }
  }

  /** The number printed in decimal is read back, with a minus sign too. */
  lemma DecimalRead(n: nat)
    ensures StrToNumber(Decimal(n), 10) == n
    ensures StrToNumber("-" + Decimal(n), 10) == -(n as int)
  {
    hide Decimal;
    DecimalMagnitude(n);
    assert ("-" + Decimal(n))[1..] == Decimal(n);
  }

  lemma HexMagnitude(b: byte, acc: nat)
    ensures Digits(Hex2(b), 16)
    ensures Magnitude(Hex2(b), 16, acc) == 256 * acc + b as nat
  {
    var x, y := (b >> 4) as nat, (b & 0x0F) as nat;
    HexDump.SplitByte(b);
    HexDump.HexDigitValue(x);
    HexDump.HexDigitValue(y);
    assert Hex2(b) == [HexDigit(x)] + [HexDigit(y)];
    MagnitudeConcat([HexDigit(x)], [HexDigit(y)], 16, acc);
    OneDigitMagnitude(HexDigit(x), 16, acc);
    OneDigitMagnitude(HexDigit(y), 16, acc * 16 + x);
  }

  /** A word of hexadecimal digits without a prefix is read as its value. */
  lemma HexDigitsRead(w: string)
    requires |w| >= 2 && w[0] != ' ' && !(9 as char <= w[0] <= 13 as char) && w[0] != '-' && w[0] != '+'
    requires w[1] != 'x' && w[1] != 'X'
    ensures StrToNumber(w, 16) == Magnitude(w, 16, 0)
  {}

  lemma HexFirstDigit(b: byte)
    ensures |Hex2(b)| == 2 && Hex2(b)[0] != ' ' && !(9 as char <= Hex2(b)[0] <= 13 as char)
    ensures Hex2(b)[0] != '-' && Hex2(b)[0] != '+' && Hex2(b)[1] != 'x' && Hex2(b)[1] != 'X'
  {
    HexDump.HexDigitValue((b >> 4) as nat);
    HexDump.HexDigitValue((b & 0x0F) as nat);
  }

  function HexAddress(a0: byte, a1: byte, a2: byte): string { Hex2(a0) + Hex2(a1) + Hex2(a2) }

  /** The number a byte holds. */
  function Value(b: byte): (n: nat)
    ensures n < 256
  {
    ByteRange(b);
    b as nat
  }

  lemma HexValue(b: byte, acc: nat)
    ensures Digits(Hex2(b), 16) && Magnitude(Hex2(b), 16, acc) == 256 * acc + Value(b)
  {
    hide Hex2, Magnitude;
    HexMagnitude(b, acc);
  }

  lemma DigitsConcat(s: string, t: string, radix: nat)
    requires Digits(s, radix) && Digits(t, radix)
    ensures Digits(s + t, radix)
  {}

  lemma ThreeMagnitudes(p: string, q: string, r: string, x: nat, y: nat, z: nat)
    requires Digits(p, 16) && Digits(q, 16) && Magnitude(p, 16, 0) == x
    requires Magnitude(q, 16, x) == 256 * x + y && Magnitude(r, 16, 256 * x + y) == 256 * (256 * x + y) + z
    ensures Magnitude(p + q + r, 16, 0) == 256 * (256 * x + y) + z
  {
    hide Magnitude, Digits;
    DigitsConcat(p, q, 16);
    MagnitudeConcat(p + q, r, 16, 0);
    MagnitudeConcat(p, q, 16, 0);
  }

  lemma WordValue(w: string, n: nat)
    requires |w| >= 2 && w[0] != ' ' && !(9 as char <= w[0] <= 13 as char) && w[0] != '-' && w[0] != '+'
    requires w[1] != 'x' && w[1] != 'X' && Magnitude(w, 16, 0) == n && Wrap64(n) == n
    ensures ParseRfAddr(w) == (false, n)
  {
    hide StrToNumber, Magnitude, Wrap64;
    HexDigitsRead(w);
  }

  /** Six hexadecimal digits are a long address, the first byte first. */
  lemma LongAddressWord(a0: byte, a1: byte, a2: byte)
    ensures ParseRfAddr(HexAddress(a0, a1, a2)) == (false, 0x1_0000 * Value(a0) + 0x100 * Value(a1) + Value(a2))
  {
    hide Hex2, Magnitude, Digits, Wrap64, ParseRfAddr, Value;
    var x, y, z := Value(a0), Value(a1), Value(a2);
    HexValue(a0, 0);
    HexValue(a1, x);
    HexValue(a2, 256 * x + y);
    ThreeMagnitudes(Hex2(a0), Hex2(a1), Hex2(a2), x, y, z);
    ThreeInRange(x, y, z);
    HexFirstDigit(a0);
    WordValue(HexAddress(a0, a1, a2), 0x1_0000 * x + 0x100 * y + z);
  }

  lemma ThreeInRange(x: nat, y: nat, z: nat)
    requires x < 256 && y < 256 && z < 256
    ensures var n := 0x1_0000 * x + 0x100 * y + z;
      n < 0x100_0000 && Wrap64(n) == n && n == 256 * (256 * x + y) + z
  {}

  /** Two hexadecimal digits behind 0x, in capital or small letters, are an 8-bit address. */
  lemma ShortAddressWord(a: byte, x: char)
    requires x in {'x', 'X'}
    ensures ParseRfAddr(['0', x] + Hex2(a)) == (true, a as nat)
  {
    hide Hex2, Magnitude, StrToNumber;
    assert (['0', x] + Hex2(a))[2..] == Hex2(a);
    HexFirstDigit(a);
    HexDigitsRead(Hex2(a));
    HexMagnitude(a, 0);
  }

  /** The value of a number word is stored in an int: it wraps at 2^32. */
  lemma Int32Wraps(x: int)
    ensures -0x8000_0000 <= ToInt32(x) < 0x8000_0000 && (ToInt32(x) - x) % 0x1_0000_0000 == 0
  {}
}
