/** Bytes and the little-endian 32-bit words that section contents are made of. */
module Bytes {

  type byte = x: int | 0 <= x < 256

  const WORD: int := 0x1_0000_0000

  /** ISDIGIT. */
  predicate IsDigit(c: byte) {
    48 <= c <= 57
  }

  /** bfd_get_32 on little-endian data. */
  function Get32(b: seq<byte>, i: nat): (w: nat)
    requires i + 4 <= |b|
    ensures w < WORD
  {
    Join(b[i], b[i + 1], b[i + 2], b[i + 3])
  }

  function Join(b0: int, b1: int, b2: int, b3: int): int {
    b0 + 0x100 * b1 + 0x1_0000 * b2 + 0x100_0000 * b3
  }

  /** bfd_put_32 on little-endian data: the low 32 bits of any integer. */
  function Word(w: int): (b: seq<byte>)
    ensures |b| == 4
  {
    [w % 0x100, w / 0x100 % 0x100, w / 0x1_0000 % 0x100, w / 0x100_0000 % 0x100]
  }

  lemma WordRoundTrip(w: int)
    ensures Get32(Word(w), 0) == w % WORD
  {
    var a, b, c := w / 0x100, w / 0x1_0000, w / 0x100_0000;
    assert b == a / 0x100 && c == b / 0x100;
    assert w == 0x100 * a + w % 0x100;
    assert a == 0x100 * b + a % 0x100;
    assert b == 0x100 * c + b % 0x100;
    assert c == 0x100 * (c / 0x100) + c % 0x100;
    assert w == WORD * (c / 0x100) + Get32(Word(w), 0);
  }

  /** The bytes of a word, lowest first. */
  lemma LowestFirst(b: seq<byte>, i: nat)
    requires i + 4 <= |b|
    ensures var w := Get32(b, i);
            && b[i] == w % 0x100 && b[i + 1] == w / 0x100 % 0x100
            && b[i + 2] == w / 0x1_0000 % 0x100 && b[i + 3] == w / 0x100_0000
  {
    var w := Get32(b, i);
    var b0: int, b1: int, b2: int, b3: int := b[i], b[i + 1], b[i + 2], b[i + 3];
    assert w / 0x100 == b1 + 0x100 * b2 + 0x1_0000 * b3;
    assert w / 0x1_0000 == b2 + 0x100 * b3;
    assert w / 0x100_0000 == b3;
  }

  lemma SmallWord(w: int)
    ensures 0 <= w < WORD ==> w % WORD == w
  {
  }
}
