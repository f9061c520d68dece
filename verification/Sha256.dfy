/** SHA-256: the streaming context of the program against the definitions of FIPS 180-4. */
module Sha256 {
  import opened Streaming
  import opened HashWords

  const BLOCK := 64

  const ROUNDS := 64

  // ---------------------------------------------------------------- the standard

  /** Section 4.2.2, by eights. */
  function K(t: nat): word
    requires t < ROUNDS
  {
    Word(KRow(t / 8)[t % 8])
  }

  function KRow(i: nat): (k: seq<bv32>)
    ensures |k| == 8
  {
    if i == 0 then K0()
    else if i == 1 then K1()
    else if i == 2 then K2()
    else if i == 3 then K3()
    else if i == 4 then K4()
    else if i == 5 then K5()
    else if i == 6 then K6()
    else K7()
  }

  function K0(): (k: seq<bv32>)
    ensures |k| == 8
  {
    [0x428a2f98, 0x71374491, 0xb5c0fbcf, 0xe9b5dba5,
     0x3956c25b, 0x59f111f1, 0x923f82a4, 0xab1c5ed5]
  }

  function K1(): (k: seq<bv32>)
    ensures |k| == 8
  {
    [0xd807aa98, 0x12835b01, 0x243185be, 0x550c7dc3,
     0x72be5d74, 0x80deb1fe, 0x9bdc06a7, 0xc19bf174]
  }

  function K2(): (k: seq<bv32>)
    ensures |k| == 8
  {
    [0xe49b69c1, 0xefbe4786, 0x0fc19dc6, 0x240ca1cc,
     0x2de92c6f, 0x4a7484aa, 0x5cb0a9dc, 0x76f988da]
  }

  function K3(): (k: seq<bv32>)
    ensures |k| == 8
  {
    [0x983e5152, 0xa831c66d, 0xb00327c8, 0xbf597fc7,
     0xc6e00bf3, 0xd5a79147, 0x06ca6351, 0x14292967]
  }

  function K4(): (k: seq<bv32>)
    ensures |k| == 8
  {
    [0x27b70a85, 0x2e1b2138, 0x4d2c6dfc, 0x53380d13,
     0x650a7354, 0x766a0abb, 0x81c2c92e, 0x92722c85]
  }

  function K5(): (k: seq<bv32>)
    ensures |k| == 8
  {
    [0xa2bfe8a1, 0xa81a664b, 0xc24b8b70, 0xc76c51a3,
     0xd192e819, 0xd6990624, 0xf40e3585, 0x106aa070]
  }

  function K6(): (k: seq<bv32>)
    ensures |k| == 8
  {
    [0x19a4c116, 0x1e376c08, 0x2748774c, 0x34b0bcb5,
     0x391c0cb3, 0x4ed8aa4a, 0x5b9cca4f, 0x682e6ff3]
  }

  function K7(): (k: seq<bv32>)
    ensures |k| == 8
  {
    [0x748f82ee, 0x78a5636f, 0x84c87814, 0x8cc70208,
     0x90befffa, 0xa4506ceb, 0xbef9a3f7, 0xc67178f2]
  }

  datatype Regs = Regs(a: word, b: word, c: word, d: word, e: word, f: word, g: word, h: word)

  /** Section 5.3.3. */
  function InitialHash(): Regs {
    Regs(Word(0x6a09e667), Word(0xbb67ae85), Word(0x3c6ef372), Word(0xa54ff53a),
         Word(0x510e527f), Word(0x9b05688c), Word(0x1f83d9ab), Word(0x5be0cd19))
  }

  function Ch(x: word, y: word, z: word): word { Word((x.bits & y.bits) ^ ((!x.bits) & z.bits)) }
  function Maj(x: word, y: word, z: word): word {
    Word((x.bits & y.bits) ^ (x.bits & z.bits) ^ (y.bits & z.bits))
  }

  /** Section 4.1.2, with the rotations of section 3.2. */
  function BigSigma0(x: word): word { Word(x.bits.RotateRight(2) ^ x.bits.RotateRight(13) ^ x.bits.RotateRight(22)) }
  function BigSigma1(x: word): word { Word(x.bits.RotateRight(6) ^ x.bits.RotateRight(11) ^ x.bits.RotateRight(25)) }
  function SmallSigma0(x: word): word { Word(x.bits.RotateRight(7) ^ x.bits.RotateRight(18) ^ (x.bits >> 3)) }
  function SmallSigma1(x: word): word { Word(x.bits.RotateRight(17) ^ x.bits.RotateRight(19) ^ (x.bits >> 10)) }

  function Expand(w16: word, w15: word, w7: word, w2: word): word {
    Plus(Plus(Plus(SmallSigma1(w2), w7), SmallSigma0(w15)), w16)
  }

  /** Section 6.2.2, step 1: the full message schedule of one block. */
  function Schedule(block: seq<word>, t: nat): word
    requires |block| == 16
  {
    if t < 16 then block[t]
    else Expand(Schedule(block, t - 16), Schedule(block, t - 15), Schedule(block, t - 7), Schedule(block, t - 2))
  }

  /** Step 3: one round. */
  function Round(r: Regs, k: word, w: word): Regs {
    var t1 := Plus(Plus(Plus(Plus(r.h, BigSigma1(r.e)), Ch(r.e, r.f, r.g)), k), w);
    var t2 := Plus(BigSigma0(r.a), Maj(r.a, r.b, r.c));
    Regs(Plus(t1, t2), r.a, r.b, r.c, Plus(r.d, t1), r.e, r.f, r.g)
  }

  function Rounds(r: Regs, block: seq<word>, t: nat): Regs
    requires |block| == 16 && t <= ROUNDS
  {
    if t == 0 then r else Round(Rounds(r, block, t - 1), K(t - 1), Schedule(block, t - 1))
  }

  function Add(x: Regs, y: Regs): Regs {
    Regs(Plus(x.a, y.a), Plus(x.b, y.b), Plus(x.c, y.c), Plus(x.d, y.d),
         Plus(x.e, y.e), Plus(x.f, y.f), Plus(x.g, y.g), Plus(x.h, y.h))
  }

  /** The four bytes of a word, most significant first, and back (section 3.1). */
  function WordBytes(w: word): (s: seq<byte>)
    ensures |s| == 4
  {
    [Byte3(w), Byte2(w), Byte1(w), Byte0(w)]
  }

  function BytesWord(s: seq<byte>): word
    requires |s| == 4
  {
    Join(s[0], s[1], s[2], s[3])
  }

  function BlockWords(s: seq<byte>): (w: seq<word>)
    requires |s| == BLOCK
    ensures |w| == 16
    ensures forall i :: 0 <= i < 16 ==> w[i] == BytesWord(s[4 * i..4 * i + 4])
  {
    seq(16, i requires 0 <= i < 16 => BytesWord(s[4 * i..4 * i + 4]))
  }

  /** Steps 2 to 4 for one block. */
  function Compress(h: Regs, s: seq<byte>): Regs {
    if |s| != BLOCK then h else Add(h, Rounds(h, BlockWords(s), ROUNDS))
  }

  /** The words as bytes, each most significant byte first. */
  function WordsBytes(ws: seq<word>): (s: seq<byte>)
    ensures |s| == 4 * |ws|
  {
    if ws == [] then [] else WordsBytes(ws[..|ws| - 1]) + WordBytes(ws[|ws| - 1])
  }

  function Words(h: Regs): (ws: seq<word>)
    ensures |ws| == 8
  {
    [h.a, h.b, h.c, h.d, h.e, h.f, h.g, h.h]
  }

  /** Section 5.1.1: the length field is the 64-bit number of message bits. */
  function Padded(msg: seq<byte>): seq<byte> {
    Pad(msg, BLOCK, BigEndian(8 * |msg| % 0x1_0000_0000_0000_0000, 8))
  }

  /** Section 6.2, for a message of whole bytes. */
  function Hash(msg: seq<byte>): seq<byte> {
    WordsBytes(Words(Blocks(Compress, InitialHash(), Padded(msg), BLOCK)))
  }

  // ---------------------------------------------------------------- the program's own word operations

  /** The macros Sigma0_256 to sigma1_256, written with shifts. */
  function MacroBig0(x: word): word {
    var b := x.bits;
    Word(((b >> 2) | (b << 30)) ^ ((b >> 13) | (b << 19)) ^ ((b >> 22) | (b << 10)))
  }
  function MacroBig1(x: word): word {
    var b := x.bits;
    Word(((b >> 6) | (b << 26)) ^ ((b >> 11) | (b << 21)) ^ ((b >> 25) | (b << 7)))
  }
  function MacroSmall0(x: word): word {
    var b := x.bits;
    Word(((b >> 7) | (b << 25)) ^ ((b >> 18) | (b << 14)) ^ (b >> 3))
  }
  function MacroSmall1(x: word): word {
    var b := x.bits;
    Word(((b >> 17) | (b << 15)) ^ ((b >> 19) | (b << 13)) ^ (b >> 10))
  }

  lemma Macros(x: word)
    ensures MacroBig0(x) == BigSigma0(x) && MacroBig1(x) == BigSigma1(x)
    ensures MacroSmall0(x) == SmallSigma0(x) && MacroSmall1(x) == SmallSigma1(x)
  {
  }

  /** reverse_32bit of the program. */
  function Reverse32(data: word): word {
    var d := (data.bits >> 16) | (data.bits << 16);
    Word(((d & 0xff00ff00) >> 8) | ((d & 0x00ff00ff) << 8))
  }

  /** What a host of either byte order keeps in memory for a word, and reads from memory. */
  function Stored(w: word, bigEndian: bool): (s: seq<byte>)
    ensures |s| == 4
  {
    var s := WordBytes(w);
    if bigEndian then s else [s[3], s[2], s[1], s[0]]
  }

  function Loaded(s: seq<byte>, bigEndian: bool): word
    requires |s| == 4
  {
    BytesWord(if bigEndian then s else [s[3], s[2], s[1], s[0]])
  }

  function ToBigEndian(w: word, bigEndian: bool): word {
    if bigEndian then w else Reverse32(w)
  }

  lemma ReverseJoin(a: byte, b: byte, c: byte, d: byte)
    ensures Reverse32(Join(d, c, b, a)) == Join(a, b, c, d)
  {
  }

  lemma LoadStored(w: word, bigEndian: bool)
    ensures Loaded(Stored(w, bigEndian), bigEndian) == w
  {
    hide Join, Byte3, Byte2, Byte1, Byte0;
    JoinParts(w);
  }

  /** Loading and converting gives the big-endian word on either host ... */
  lemma LoadBigEndian(s: seq<byte>, bigEndian: bool)
    requires |s| == 4
    ensures ToBigEndian(Loaded(s, bigEndian), bigEndian) == BytesWord(s)
  {
    hide Join, Reverse32, Byte3, Byte2, Byte1, Byte0;
    ReverseJoin(s[0], s[1], s[2], s[3]);
  }

  /** ... and converting and storing leaves the big-endian bytes. */
  lemma StoreBigEndian(w: word, bigEndian: bool)
    ensures Stored(ToBigEndian(w, bigEndian), bigEndian) == WordBytes(w)
  {
    hide Join, Reverse32, Byte3, Byte2, Byte1, Byte0;
    var s := WordBytes(w);
    JoinParts(w);
    ReverseJoin(s[3], s[2], s[1], s[0]);
    PartsOfJoin(s[3], s[2], s[1], s[0]);
    assert w == Join(s[0], s[1], s[2], s[3]);
  }
}
