/** Bytes, 32-bit words and the little-endian layout of a length field. */
module Bytes {

  type byte = x: int | 0 <= x < 256

  const TWO32: int := 0x1_0000_0000

  /** A C `uint32_t` conversion: the value modulo 2^32. */
  function U32(x: int): (r: nat)
    ensures r < TWO32
    ensures 0 <= x < TWO32 ==> r == x
  {
    x % 0x1_0000_0000
  }

  /** The four little-endian bytes of the low 32 bits of n. */
  function Le32(n: nat): (b: seq<byte>)
    ensures |b| == 4
  {
    [n % 256, (n / 0x100) % 256, (n / 0x1_0000) % 256, (n / 0x100_0000) % 256]
  }

  /** The 32-bit little-endian word at an offset. */
  function Word(buf: seq<byte>, at: nat): (w: nat)
    requires at + 4 <= |buf|
    ensures w < TWO32
  {
    buf[at] as int + 0x100 * (buf[at + 1] as int) + 0x1_0000 * (buf[at + 2] as int) + 0x100_0000 * (buf[at + 3] as int)
  }

  function FromLe32(b: seq<byte>): (n: nat)
    requires |b| == 4
  {
    Word(b, 0)
  }

  /** Decoding an encoded word gives its value modulo 2^32. */
  lemma DecodeLe32(n: nat)
    ensures FromLe32(Le32(n)) == U32(n)
  {
    var a := n / 0x100;
    var b := n / 0x1_0000;
    var c := n / 0x100_0000;
    assert a / 0x100 == b && b / 0x100 == c;
    assert n == 0x100 * a + n % 256 && a == 0x100 * b + a % 256 && b == 0x100 * c + b % 256;
    assert c == 0x100 * (c / 0x100) + c % 256;
    assert n == TWO32 * (c / 0x100) + FromLe32(Le32(n));
  }

  lemma LowDigit(a: byte, x: int, c: byte, y: int)
    requires a as int + 0x100 * x == c as int + 0x100 * y
    ensures a == c && x == y
  {
  }

  /** Four bytes have one value. */
  lemma WordInjective(b: seq<byte>, c: seq<byte>)
    requires |b| == |c| == 4 && FromLe32(b) == FromLe32(c)
    ensures b == c
  {
    LowDigit(b[0], b[1] as int + 0x100 * (b[2] as int) + 0x1_0000 * (b[3] as int),
             c[0], c[1] as int + 0x100 * (c[2] as int) + 0x1_0000 * (c[3] as int));
    LowDigit(b[1], b[2] as int + 0x100 * (b[3] as int), c[1], c[2] as int + 0x100 * (c[3] as int));
    LowDigit(b[2], b[3], c[2], c[3]);
  }

  /** A word has a value exactly if its four bytes are that value's. */
  lemma WordBytes(buf: seq<byte>, at: nat, w: nat)
    requires at + 4 <= |buf| && w < TWO32
    ensures Word(buf, at) == w <==> buf[at..at + 4] == Le32(w)
  {
    DecodeLe32(w);
    var b := buf[at..at + 4];
    assert b[0] == buf[at] && b[1] == buf[at + 1] && b[2] == buf[at + 2] && b[3] == buf[at + 3];
    assert Word(buf, at) == FromLe32(b);
    if Word(buf, at) == w {
      WordInjective(b, Le32(w));
    }
  }

  /** A word changes when one of its bytes does, and only then. */
  lemma WordUpdate(buf: seq<byte>, at: nat, i: nat, x: byte)
    requires at + 4 <= |buf| && i < |buf| && x != buf[i]
    ensures Word(buf[i := x], at) == Word(buf, at) <==> !(at <= i < at + 4)
  {
  }

  lemma NextU32(k: nat)
    ensures U32(U32(k) + 1) == U32(k + 1)
  {
  }
}
