/** Machine words of the server: bytes, 32-bit addresses and the big-endian
    byte order in which the handlers write them into an option. */
module Words {

  type byte = x: int | 0 <= x < 256

  const TWO_TO_THE_32 := 0x1_0000_0000

  type u32 = x: int | 0 <= x < 0x1_0000_0000

  /** The largest value of a uint32_t. */
  const MAX_U32: u32 := 0xFFFF_FFFF

  /** `ip + 1` on a uint32_t. */
  function Succ32(ip: u32): u32 {
    if ip == MAX_U32 then 0 else ip + 1
  }

  /** The four stores `(w >> 24) & 0xFF` down to `w & 0xFF`. The right shift of
      a negative `int` is arithmetic, which is division rounding down. */
  function BigEndian(w: int): (bytes: seq<byte>)
    ensures |bytes| == 4
  {
    [(w / 0x100_0000) % 256, (w / 0x1_0000) % 256, (w / 0x100) % 256, w % 256]
  }

  /** The word a reader in network byte order sees. */
  function WordAt(bytes: seq<byte>): u32
    requires |bytes| == 4
  {
    var b0: int, b1: int, b2: int, b3: int := bytes[0], bytes[1], bytes[2], bytes[3];
    b0 * 0x100_0000 + b1 * 0x1_0000 + b2 * 0x100 + b3
  }

  /** The reader gets back the word, and the two's complement of a negative one. */
  lemma WordAtBigEndian(w: int)
    ensures WordAt(BigEndian(w)) == w % TWO_TO_THE_32
  {
    var a, b, c := w / 256, w / 0x1_0000, w / 0x100_0000;
    assert b == a / 256 && c == b / 256;
    assert w == 256 * a + w % 256;
    assert a == 256 * b + a % 256;
    assert b == 256 * c + b % 256;
    assert c == 256 * (c / 256) + c % 256;
    var v := WordAt(BigEndian(w));
    assert w == (c / 256) * TWO_TO_THE_32 + v;
  }
}
