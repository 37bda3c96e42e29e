/** 32-bit unsigned words, and bytes. */
module Words {

  const W: int := 0x1_0000_0000

  type Word = x: int | 0 <= x < W

  type Byte = x: int | 0 <= x < 256

  /** A word as bytes, the lowest first. */
  function Encode(n: Word): (s: seq<Byte>)
    ensures |s| == 4
  {
    var x: int := n;
    [x % 256, x / 0x100 % 256, x / 0x1_0000 % 256, x / 0x100_0000]
  }

  function Decode(s: seq<Byte>): int
    requires |s| == 4
  {
    s[0] as int + 0x100 * (s[1] as int) + 0x1_0000 * (s[2] as int) + 0x100_0000 * (s[3] as int)
  }

  lemma DecodeEncode(n: Word)
    ensures Decode(Encode(n)) == n
  {
    var x: int := n;
    var a, b, c := x / 0x100, x / 0x1_0000, x / 0x100_0000;
    Quotients(x);
    assert x == 0x100 * a + x % 256;
    assert a == 0x100 * b + a % 256;
    assert b == 0x100 * c + b % 256;
  }

  lemma Quotients(x: int)
    ensures x / 0x1_0000 == x / 0x100 / 0x100 && x / 0x100_0000 == x / 0x1_0000 / 0x100
  {
  }
}
