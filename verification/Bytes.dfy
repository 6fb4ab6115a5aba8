/** Bytes, fixed-width unsigned integers and their byte encodings. */
module Bytes {

  type byte = b: int | 0 <= b < 0x100
  type u16 = n: int | 0 <= n < 0x1_0000
  type u32 = n: int | 0 <= n < 0x1_0000_0000

  /** The order in which a platform stores the bytes of an integer. */
  datatype ByteOrder = BigEndian | LittleEndian

  /** Go's conversions uint16(n), uint32(n) and byte(n) keep the low-order bits. */
  function ToU16(n: int): u16 { n % 0x1_0000 }

  function ToU32(n: int): u32 { n % 0x1_0000_0000 }

  function ToByte(n: int): byte { n % 0x100 }

  function Reverse(b: seq<byte>): (r: seq<byte>)
    ensures |r| == |b|
    ensures forall i :: 0 <= i < |b| ==> r[i] == b[|b| - 1 - i]
  {
    seq(|b|, i requires 0 <= i < |b| => b[|b| - 1 - i])
  }

  function Be16(n: u16): (r: seq<byte>)
    ensures |r| == 2
  {
    [n / 0x100, n % 0x100]
  }

  function Be32(n: u32): (r: seq<byte>)
    ensures |r| == 4
  {
    [n / 0x100_0000, n / 0x1_0000 % 0x100, n / 0x100 % 0x100, n % 0x100]
  }

  function Load16(b: seq<byte>, at: nat): u16
    requires at + 2 <= |b|
  {
    b[at] as int * 0x100 + b[at + 1]
  }

  function Load32(b: seq<byte>, at: nat): u32
    requires at + 4 <= |b|
  {
    b[at] as int * 0x100_0000 + b[at + 1] as int * 0x1_0000 + b[at + 2] as int * 0x100 + b[at + 3]
  }

  function Put16(order: ByteOrder, n: u16): (r: seq<byte>)
    ensures |r| == 2
  {
    if order.BigEndian? then Be16(n) else Reverse(Be16(n))
  }

  function Put32(order: ByteOrder, n: u32): (r: seq<byte>)
    ensures |r| == 4
  {
    if order.BigEndian? then Be32(n) else Reverse(Be32(n))
  }

  function Get16(order: ByteOrder, b: seq<byte>): u16
    requires |b| == 2
  {
    Load16(if order.BigEndian? then b else Reverse(b), 0)
  }

  function Get32(order: ByteOrder, b: seq<byte>): u32
    requires |b| == 4
  {
    Load32(if order.BigEndian? then b else Reverse(b), 0)
  }

  lemma Get16Put16(order: ByteOrder, n: u16)
    ensures Get16(order, Put16(order, n)) == n
  {
  }

  lemma Be32Load(n: u32)
    ensures Load32(Be32(n), 0) == n
  {
    assert n / 0x100 == n / 0x1_0000 * 0x100 + n / 0x100 % 0x100;
    assert n / 0x1_0000 == n / 0x100_0000 * 0x100 + n / 0x1_0000 % 0x100;
  }

  lemma Load32Be(b: seq<byte>)
    requires |b| == 4
    ensures Be32(Load32(b, 0)) == b
  {
    var n := Load32(b, 0);
    assert n / 0x100_0000 == b[0];
    assert n / 0x1_0000 == b[0] as int * 0x100 + b[1];
    assert n / 0x100 == (b[0] as int * 0x100 + b[1]) * 0x100 + b[2];
  }

  lemma Get32Put32(order: ByteOrder, n: u32)
    ensures Get32(order, Put32(order, n)) == n
  {
    Be32Load(n);
    assert Reverse(Reverse(Be32(n))) == Be32(n);
  }

  lemma Put32Get32(order: ByteOrder, b: seq<byte>)
    requires |b| == 4
    ensures Put32(order, Get32(order, b)) == b
  {
    Load32Be(b);
    Load32Be(Reverse(b));
    assert Reverse(Reverse(b)) == b;
  }
}
