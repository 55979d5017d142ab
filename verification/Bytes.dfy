/** Bytes and the big-endian fields the protocols put them in. */
module Bytes {
  type byte = x: int | 0 <= x < 256

  function Word(hi: byte, lo: byte): (w: nat)
    ensures w < 0x1_0000
  {
    256 * hi + lo
  }

  /** A 16-bit field, truncated as `uint16(n)` is. */
  function Put16(n: nat): (s: seq<byte>)
    ensures |s| == 2
  {
    [n / 256 % 256, n % 256]
  }

  /** Reading the field back gives the number modulo 65536. */
  lemma WordOfPut16(n: nat)
    ensures Word(Put16(n)[0], Put16(n)[1]) == n % 0x1_0000
  {
    assert n == 256 * (n / 256) + n % 256;
    assert n / 256 == 256 * (n / 0x1_0000) + n / 256 % 256;
  }

  lemma FieldHolds(n: nat)
    requires n < 0x1_0000
    ensures Word(Put16(n)[0], Put16(n)[1]) == n
  {
    WordOfPut16(n);
  }

  lemma Put16OfWord(hi: byte, lo: byte)
    ensures Put16(Word(hi, lo)) == [hi, lo]
  {
    var n := Word(hi, lo);
    assert n / 256 == hi && n % 256 == lo;
  }

  /** A 32-bit field, as an address value. */
  function Put32(n: nat): (s: seq<byte>)
    ensures |s| == 4
  {
    [n / 0x100_0000 % 256, n / 0x1_0000 % 256, n / 256 % 256, n % 256]
  }

  function Get32(a: byte, b: byte, c: byte, d: byte): (n: nat)
    ensures n < 0x1_0000_0000
  {
    0x100_0000 * a + 0x1_0000 * b + 256 * c + d
  }

  lemma Get32OfPut32(n: nat)
    requires n < 0x1_0000_0000
    ensures Get32(Put32(n)[0], Put32(n)[1], Put32(n)[2], Put32(n)[3]) == n
  {
    PlacesNest(n);
    var q1, q2, q3 := n / 256, n / 0x1_0000, n / 0x100_0000;
    assert n == 256 * q1 + n % 256 && q1 == 256 * q2 + q1 % 256 && q2 == 256 * q3 + q2 % 256;
    assert q3 % 256 == q3;
  }

  lemma PlacesNest(n: nat)
    ensures n / 0x1_0000 == n / 256 / 256 && n / 0x100_0000 == n / 0x1_0000 / 256
  {
  }
}
