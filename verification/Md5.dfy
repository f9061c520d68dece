/** MD5 as RFC 1321 defines it. */
module Md5 {
  import opened Streaming
  import opened HashWords

  const BLOCK := 64

  const STEPS := 64

  datatype Regs = Regs(a: word, b: word, c: word, d: word)

  /** Section 3.3. */
  function InitialRegs(): Regs {
    Regs(Word(0x67452301), Word(0xefcdab89), Word(0x98badcfe), Word(0x10325476))
  }

  /** Section 3.4: the auxiliary functions. */
  function F(x: word, y: word, z: word): word { Word((x.bits & y.bits) | ((!x.bits) & z.bits)) }
  function G(x: word, y: word, z: word): word { Word((x.bits & z.bits) | (y.bits & !z.bits)) }
  function H(x: word, y: word, z: word): word { Word(x.bits ^ y.bits ^ z.bits) }
  function I(x: word, y: word, z: word): word { Word(y.bits ^ (x.bits | !z.bits)) }

  function Auxiliary(t: nat, x: word, y: word, z: word): word {
    if t < 16 then F(x, y, z) else if t < 32 then G(x, y, z) else if t < 48 then H(x, y, z) else I(x, y, z)
  }

  /** Which word of the block step t takes. */
  function Index(t: nat): (k: nat)
    ensures k < 16
  {
    if t < 16 then t else if t < 32 then (1 + 5 * t) % 16 else if t < 48 then (5 + 3 * t) % 16 else 7 * t % 16
  }

  /** The rotation of step t. */
  function Shift(t: nat): (s: nat)
    ensures 0 < s < 32
  {
    var q := t % 4;
    if t < 16 then (if q == 0 then 7 else if q == 1 then 12 else if q == 2 then 17 else 22)
    else if t < 32 then (if q == 0 then 5 else if q == 1 then 9 else if q == 2 then 14 else 20)
    else if t < 48 then (if q == 0 then 4 else if q == 1 then 11 else if q == 2 then 16 else 23)
    else (if q == 0 then 6 else if q == 1 then 10 else if q == 2 then 15 else 21)
  }

  /** The table T, by fours: the integer parts of 4294967296 times abs(sin(i)), i from 1 to 64. */
  function Row(k: nat): (word, word, word, word) {
    if k == 0 then (Word(0xd76aa478), Word(0xe8c7b756), Word(0x242070db), Word(0xc1bdceee))
    else if k == 1 then (Word(0xf57c0faf), Word(0x4787c62a), Word(0xa8304613), Word(0xfd469501))
    else if k == 2 then (Word(0x698098d8), Word(0x8b44f7af), Word(0xffff5bb1), Word(0x895cd7be))
    else if k == 3 then (Word(0x6b901122), Word(0xfd987193), Word(0xa679438e), Word(0x49b40821))
    else if k == 4 then (Word(0xf61e2562), Word(0xc040b340), Word(0x265e5a51), Word(0xe9b6c7aa))
    else if k == 5 then (Word(0xd62f105d), Word(0x02441453), Word(0xd8a1e681), Word(0xe7d3fbc8))
    else if k == 6 then (Word(0x21e1cde6), Word(0xc33707d6), Word(0xf4d50d87), Word(0x455a14ed))
    else if k == 7 then (Word(0xa9e3e905), Word(0xfcefa3f8), Word(0x676f02d9), Word(0x8d2a4c8a))
    else if k == 8 then (Word(0xfffa3942), Word(0x8771f681), Word(0x6d9d6122), Word(0xfde5380c))
    else if k == 9 then (Word(0xa4beea44), Word(0x4bdecfa9), Word(0xf6bb4b60), Word(0xbebfbc70))
    else if k == 10 then (Word(0x289b7ec6), Word(0xeaa127fa), Word(0xd4ef3085), Word(0x04881d05))
    else if k == 11 then (Word(0xd9d4d039), Word(0xe6db99e5), Word(0x1fa27cf8), Word(0xc4ac5665))
    else if k == 12 then (Word(0xf4292244), Word(0x432aff97), Word(0xab9423a7), Word(0xfc93a039))
    else if k == 13 then (Word(0x655b59c3), Word(0x8f0ccc92), Word(0xffeff47d), Word(0x85845dd1))
    else if k == 14 then (Word(0x6fa87e4f), Word(0xfe2ce6e0), Word(0xa3014314), Word(0x4e0811a1))
    else (Word(0xf7537e82), Word(0xbd3af235), Word(0x2ad7d2bb), Word(0xeb86d391))
  }

  function T(t: nat): word
    requires t < STEPS
  {
    var row, q := Row(t / 4), t % 4;
    if q == 0 then row.0 else if q == 1 then row.1 else if q == 2 then row.2 else row.3
  }

  function RotateLeft(x: word, s: nat): word
    requires 0 < s < 32
  {
    Word((x.bits << s) | (x.bits >> (32 - s)))
  }

  function Sum(a: word, f: word, x: word, ac: word): word {
    Word(a.bits + f.bits + x.bits + ac.bits)
  }

  /** a = b + ((a + f + x + ac) <<< s) */
  function Mix(a: word, b: word, f: word, x: word, s: nat, ac: word): word
    requires 0 < s < 32
  {
    Plus(b, RotateLeft(Sum(a, f, x, ac), s))
  }

  /** The new value of step t. */
  function New(t: nat, a: word, b: word, c: word, d: word, block: seq<word>): word
    requires t < STEPS && |block| == 16
  {
    Mix(a, b, Auxiliary(t, b, c, d), block[Index(t)], Shift(t), T(t))
  }

  /** The registers after t steps; from step to step their roles rotate. */
  function Steps(r: Regs, block: seq<word>, t: nat): Regs
    requires t <= STEPS && |block| == 16
  {
    if t == 0 then r
    else
      var q := Steps(r, block, t - 1);
      Regs(q.d, New(t - 1, q.a, q.b, q.c, q.d, block), q.b, q.c)
  }

  function Add(x: Regs, y: Regs): Regs {
    Regs(Plus(x.a, y.a), Plus(x.b, y.b), Plus(x.c, y.c), Plus(x.d, y.d))
  }

  /** A word from four bytes, least significant first. */
  function BytesWord(s: seq<byte>): word
    requires |s| == 4
  {
    Join(s[3], s[2], s[1], s[0])
  }

  function WordBytes(w: word): (s: seq<byte>)
    ensures |s| == 4
  {
    [Byte0(w), Byte1(w), Byte2(w), Byte3(w)]
  }

  function BlockWords(s: seq<byte>): (w: seq<word>)
    requires |s| == BLOCK
    ensures |w| == 16
    ensures forall i :: 0 <= i < 16 ==> w[i] == BytesWord(s[4 * i..4 * i + 4])
  {
    seq(16, i requires 0 <= i < 16 => BytesWord(s[4 * i..4 * i + 4]))
  }

  /** Section 3.4, for one block. */
  function Compress(h: Regs, s: seq<byte>): Regs {
    if |s| != BLOCK then h else Add(h, Steps(h, BlockWords(s), STEPS))
  }

  /** The k low bytes of n, least significant first. */
  function LittleEndian(n: nat, k: nat): (s: seq<byte>)
    ensures |s| == k
  {
    if k == 0 then [] else [(n % 0x100) as byte] + LittleEndian(n / 0x100, k - 1)
  }

  /** Sections 3.1 and 3.2: the length field is the 64-bit number of message bits, low word first. */
  function Padded(msg: seq<byte>): seq<byte> {
    Pad(msg, BLOCK, LittleEndian(8 * |msg| % 0x1_0000_0000_0000_0000, 8))
  }

  /** Section 3.5. */
  function Output(r: Regs): seq<byte> {
    WordBytes(r.a) + WordBytes(r.b) + WordBytes(r.c) + WordBytes(r.d)
  }

  function Digest(msg: seq<byte>): seq<byte> {
    Output(Blocks(Compress, InitialRegs(), Padded(msg), BLOCK))
  }
}
