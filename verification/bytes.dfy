/** Byte strings as the MicroTime source sees them: PHP binary strings, the
    fixed-size SHA-512 digest, the big-endian `pack('N', ...)` encoding and
    the prefix form of `substr`. */
module Bytes {

  /** One octet of a PHP binary string. */
  newtype byte = x: int | 0 <= x < 0x100

  /** A PHP binary string. */
  type Bytes = seq<byte>

  /** Length in bytes of a raw SHA-512 digest (`hash('sha512', ..., true)`). */
  const DIGEST_LEN: nat := 64

  /** A raw SHA-512 digest: always exactly 64 bytes. */
  type Digest = s: Bytes | |s| == DIGEST_LEN witness seq(DIGEST_LEN, _ => 0)

  /** 2^32: `pack('N', ...)` keeps only the low 32 bits of its argument. */
  const WORD32: int := 0x1_0000_0000

  /** Reads 4 bytes as an unsigned big-endian integer. */
  function UnpackN(b: Bytes): (x: int)
    requires |b| == 4
    ensures 0 <= x < WORD32
  {
    (b[0] as int) * 0x100_0000 + (b[1] as int) * 0x1_0000 + (b[2] as int) * 0x100 + (b[3] as int)
  }

  /** `pack('N', x)`: the low 32 bits of `x` as 4 big-endian bytes. */
  function PackN(x: int): (r: Bytes)
    ensures |r| == 4
    ensures UnpackN(r) == x % WORD32
  {
    var w := x % WORD32;
    var r0 := w % 0x100_0000;
    var r1 := r0 % 0x1_0000;
    [(w / 0x100_0000) as byte, (r0 / 0x1_0000) as byte, (r1 / 0x100) as byte, (r1 % 0x100) as byte]
  }

  /** Every 4-byte string is the `pack('N', ...)` encoding of the value it reads as. */
  lemma PackUnpack(b: Bytes)
    requires |b| == 4
    ensures PackN(UnpackN(b)) == b
  {
    var x := UnpackN(b);
    var r0 := (b[1] as int) * 0x1_0000 + (b[2] as int) * 0x100 + (b[3] as int);
    var r1 := (b[2] as int) * 0x100 + (b[3] as int);
    assert x % WORD32 == x;
    assert x / 0x100_0000 == b[0] as int && x % 0x100_0000 == r0;
    assert r0 / 0x1_0000 == b[1] as int && r0 % 0x1_0000 == r1;
    assert r1 / 0x100 == b[2] as int && r1 % 0x100 == b[3] as int;
  }

  /** Two values have the same `pack('N', ...)` encoding exactly when they agree modulo 2^32. */
  lemma PackNInjective(x: int, y: int)
    ensures PackN(x) == PackN(y) <==> x % WORD32 == y % WORD32
  {
    if x % WORD32 == y % WORD32 {
      assert PackN(x) == PackN(y);
    }
  }

  /** `substr(s, 0, length)` as PHP 8 computes it: a non-negative length keeps at
      most `length` leading bytes, a negative one drops `-length` trailing bytes. */
  function Substr(s: Bytes, length: int): (r: Bytes)
    ensures r <= s
    ensures 0 <= length <= |s| ==> |r| == length
    ensures length > |s| ==> r == s
    ensures length < 0 ==> |r| == if |s| + length < 0 then 0 else |s| + length
  {
    if length >= 0 then
      if length <= |s| then s[..length] else s
    else if |s| + length < 0 then []
    else s[..|s| + length]
  }
}
