/** Types shared by every part of the gateway model. */
module Common {
  type byte = bv8

  /** A frame exchanged with the X10 controller. */
  type Frame = seq<byte>

  datatype Option<+T> = None | Some(value: T)

  /** The clock readings taken while one input is handled: the milliseconds read when a frame is looked up and
      again when its expiry is set, and the seconds stamped on a sensor. */
  datatype Clock = Clock(now: nat, later: nat, seconds: nat)

  /** The value of an integer assigned to a 32-bit signed variable. */
  function ToInt32(x: int): int {
    var w := x % 0x1_0000_0000;
    if w < 0x8000_0000 then w else w - 0x1_0000_0000
  }

  lemma ByteNext(b: byte)
    requires b < 255
    ensures (b + 1) as int == b as int + 1
  {}

  lemma ByteOfInt(b: byte)
    ensures (b as int) as byte == b
  {}

  /** A number below 256 survives being stored in a byte. */
  lemma {:induction false} ByteBack(n: nat)
    requires n < 256
    ensures (n as byte) as int == n
  {
    if n > 0 {
      ByteBack(n - 1);
      ByteBackNext((n - 1) as byte, n);
    }
  }

  lemma ByteBackNext(b: byte, n: nat)
    requires n < 256 && b as int == n - 1
    ensures (n as byte) as int == n
  {
    assert b != 255;
    ByteNext(b);
    ByteOfInt(b + 1);
  }

  lemma SameByte(a: byte, b: byte)
    requires a as int == b as int
    ensures a == b
  {}

  lemma ByteRange(b: byte)
    ensures 0 <= b as int < 256
  {}
}
