/** Bytes and the fixed-width integers that the wire formats are made of. */
module Bytes {
  type byte = x: int | 0 <= x < 256

  const U24: nat := 0x100_0000
  const U32: nat := 0x1_0000_0000

  /** The byte as a number of its own. */
  function Value(b: byte): nat {
    b
  }

  function Be24(a: byte, b: byte, c: byte): (n: nat)
    ensures n < U24
  {
    a * 0x1_0000 + b * 0x100 + c
  }

  function Be32(a: byte, b: byte, c: byte, d: byte): (n: nat)
    ensures n < U32
  {
    a * 0x100_0000 + b * 0x1_0000 + c * 0x100 + d
  }

  function Le32(a: byte, b: byte, c: byte, d: byte): (n: nat)
    ensures n < U32
  {
    Be32(d, c, b, a)
  }

  function WriteBe24(n: nat): (s: seq<byte>)
    ensures |s| == 3
  {
    [n / 0x1_0000 % 256, n / 0x100 % 256, n % 256]
  }

  function WriteBe32(n: nat): (s: seq<byte>)
    ensures |s| == 4
  {
    [n / 0x100_0000 % 256, n / 0x1_0000 % 256, n / 0x100 % 256, n % 256]
  }

  /** The number whose four bytes are those of `n` in the opposite order. */
  function Swap32(n: nat): nat {
    var s := WriteBe32(n);
    Be32(s[3], s[2], s[1], s[0])
  }

  lemma Be24Inverse(n: nat)
    requires n < U24
    ensures var s := WriteBe24(n); Be24(s[0], s[1], s[2]) == n
  {
    assert n == n / 0x100 * 0x100 + n % 0x100;
    assert n / 0x100 == n / 0x1_0000 * 0x100 + n / 0x100 % 0x100;
  }

  lemma Be32Inverse(n: nat)
    requires n < U32
    ensures var s := WriteBe32(n); Be32(s[0], s[1], s[2], s[3]) == n
  {
    var a, b, c := n / 0x100, n / 0x1_0000, n / 0x100_0000;
    assert n == a * 0x100 + n % 0x100;
    assert a == b * 0x100 + a % 0x100;
    assert b == c * 0x100 + b % 0x100;
  }

  lemma Swap32Twice(n: nat)
    requires n < U32
    ensures Swap32(n) < U32 && Swap32(Swap32(n)) == n
  {
    Be32Inverse(n);
    var s := WriteBe32(n);
    SplitBe32(s[3], s[2], s[1], s[0]);
  }

  /** The bytes of a number read from four bytes are those bytes. */
  lemma SplitBe32(a: byte, b: byte, c: byte, d: byte)
    ensures WriteBe32(Be32(a, b, c, d)) == [a, b, c, d]
  {
    var n := Be32(a, b, c, d);
    assert n / 0x100 == a * 0x1_0000 + b * 0x100 + c && n % 0x100 == d;
    assert n / 0x1_0000 == a * 0x100 + b;
    assert n / 0x100_0000 == a;
  }
}
