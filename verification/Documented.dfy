/** The code tables by a rule, and the frames that the comments of the sources give as examples. */
module Documented {
  import opened Common
  import opened Codes
  import opened Frames
  import opened Commands
  import Names
  import Q = OutputQueue

  // ----- The house and unit codes -----

  /** The code of house 'A' + n, or of unit n + 1, from the bits of n: bit 3 is bit 0 of n, bit 2 is set iff bits 1 and 2 of
      n are equal, bit 1 is bit 2 inverted, and bit 0 is set iff bits 2 and 3 differ. */
  lemma CodeRule(n: nat)
    requires n < 16
    ensures var n0, n1, n2, n3 := n % 2, n / 2 % 2, n / 4 % 2, n / 8;
      X10HouseCode(n) as nat == 8 * n0 + (if n1 == n2 then 4 else 0) + (if n2 == 0 then 2 else 0) + (if n2 == n3 then 0 else 1)
  {
    if n < 4 {
      assert n == 0 || n == 1 || n == 2 || n == 3;
    } else if n < 8 {
      assert n == 4 || n == 5 || n == 6 || n == 7;
    } else if n < 12 {
      assert n == 8 || n == 9 || n == 10 || n == 11;
    } else {
      assert n == 12 || n == 13 || n == 14 || n == 15;
    }
  }

  /** The bits of a nibble in opposite order. */
  function Reversed(b: byte): byte { ((b & 1) << 3) | ((b & 2) << 1) | ((b & 4) >> 1) | ((b & 8) >> 3) }

  /** The radio code of a house is its power-line code backwards. */
  lemma RadioCodeReversed(n: nat)
    requires n < 16
    ensures X10HouseCodeRf(n) == Reversed(X10HouseCode(n))
  {
    if n < 8 { assert n == 0 || n == 1 || n == 2 || n == 3 || n == 4 || n == 5 || n == 6 || n == 7; }
  }

  // ----- Example frames -----

  lemma PowerLineExamples()
    ensures ReadPl([0x5A, 0x02, 0x00, 0x66], 4) == PlUnit(0, 0)
    ensures ReadPl([0x5A, 0x02, 0x01, 0x62], 4) == PlFunc(0, 2)
    ensures ReadPl([0x5A, 0x03, 0x02, 0x16, 0x65], 5) == PlDim(0, 5, 2)
  {}

  lemma ExtendedExamples()
    ensures ReadPl([0x5A, 0x05, 0x07, 0xE7, 0x02, 0x1F, 0x31], 7) == PlExt(1, 2, 7, 31, 0x31)
    ensures ReadPl([0x5A, 0x05, 0x08, 0x31, 0x21, 0x02, 0xE7], 7) == PlExt(1, 2, 7, 33, 0x31)
    ensures ReadPl([0x5A, 0x05, 0x08, 0x31, 0x2F, 0x0A, 0xE7], 7) == PlExt(1, 3, 7, 47, 0x31)
  {}

  /** A1 on, A1 off, A9 on and I1 off by radio. */
  lemma RadioExamples()
    ensures ReadBytes(6, 0x20, 0x60, 0x9F, 0x00, 0xFF, 0, 0) == OnOff(0, 0, false)
    ensures ReadBytes(6, 0x20, 0x60, 0x9F, 0x20, 0xDF, 0, 0) == OnOff(0, 0, true)
    ensures ReadBytes(6, 0x20, 0x64, 0x9B, 0x00, 0xFB, 0, 0) == OnOff(0, 8, false)
    ensures ReadBytes(6, 0x20, 0xE0, 0x1F, 0x20, 0xDF, 0, 0) == OnOff(8, 0, true)
  {}

  /** A remote control with an 8-bit address, a sensor with a long one, and camera key "up" of house N. */
  lemma SecurityExamples()
    ensures ReadBytes(6, 0x20, 0xE2, 0xED, 0x0A, 0xF5, 0, 0) == Security8(0xE2, 0x0A)
    ensures ReadBytes(8, 0x29, 0x7F, 0x70, 0x8C, 0x73, 0xCA, 0x00) == Security24(0x7F, 0xCA, 0x00, 0x8C)
    ensures ReadBytes(5, 0x14, 0x47, 0x62, 0x10, 0, 0, 0) == Camera(13, 0x62)
  {}

  // ----- Start-up -----

  /** What a CM19A is sent at start-up: the first frame at once, and the others one by one as they are released. */
  lemma InitialFrames()
    ensures Q.StartUp(true).written == [[0x80, 0x05, 0x1B, 0x14, 0x28, 0x20, 0x24, 0x29]]
    ensures |Q.StartUp(true).waiting| == 7
    ensures Q.StartUp(true).waiting[..3]
         == [[0x83, 0x03], [0x84, 0x37, 0x02, 0x60, 0, 0, 0, 0], [0x80, 0x01, 0x00, 0x14, 0x20, 0x24, 0x28, 0x29]]
    ensures Q.StartUp(true).waiting[3..]
         == [[0x83, 0x02, 0x0F], [0x83, 0x37, 0x02, 0x60, 0, 0, 0, 0], [0x20, 0x34, 0xCB, 0x58, 0xA7],
             [0x80, 0x05, 0x01, 0x14, 0x20, 0x24, 0x28, 0x29]]
  {
    var frames := Q.InitFrames(true);
    var first := Q.Submit(Q.BOOT, frames[0]);
    Q.SubmitAllWithRoom(Q.BOOT, frames);
    Q.SubmitAllWithRoom(first, frames[1..]);
    assert Q.BOOT.written + [frames[0]] == [frames[0]];
    Q.StartUpState(true);
    OneAndRest(Q.StartUp(true).written, Q.StartUp(true).waiting, frames);
  }

  lemma OneAndRest(written: seq<Frame>, waiting: seq<Frame>, all: seq<Frame>)
    requires |written| == 1 && written + waiting == all
    ensures written == [all[0]] && waiting == all[1..]
  {
    assert (written + waiting)[0] == written[0] && (written + waiting)[1..] == waiting;
  }
}
