/** SHA-512 and SHA-384: the definitions of FIPS 180-4 and the word operations of the program. */
module Sha512 {
  import opened Streaming

  /** A 64-bit word.  The wrapper keeps bit-vector reasoning inside the functions that need it. */
  datatype word = Word(bits: bv64)

  const BLOCK := 128

  const ROUNDS := 80

  // ---------------------------------------------------------------- the standard

  /** Section 4.2.3, by eights. */
  function K(t: nat): word
    requires t < ROUNDS
  {
    Word(KRow(t / 8)[t % 8])
  }

  function KRow(i: nat): (k: seq<bv64>)
    ensures |k| == 8
  {
    if i == 0 then K0()
    else if i == 1 then K1()
    else if i == 2 then K2()
    else if i == 3 then K3()
    else if i == 4 then K4()
    else if i == 5 then K5()
    else if i == 6 then K6()
    else if i == 7 then K7()
    else if i == 8 then K8()
    else K9()
  }

  function K0(): (k: seq<bv64>)
    ensures |k| == 8
  {
    [0x428a2f98d728ae22, 0x7137449123ef65cd, 0xb5c0fbcfec4d3b2f, 0xe9b5dba58189dbbc,
     0x3956c25bf348b538, 0x59f111f1b605d019, 0x923f82a4af194f9b, 0xab1c5ed5da6d8118]
  }

  function K1(): (k: seq<bv64>)
    ensures |k| == 8
  {
    [0xd807aa98a3030242, 0x12835b0145706fbe, 0x243185be4ee4b28c, 0x550c7dc3d5ffb4e2,
     0x72be5d74f27b896f, 0x80deb1fe3b1696b1, 0x9bdc06a725c71235, 0xc19bf174cf692694]
  }

  function K2(): (k: seq<bv64>)
    ensures |k| == 8
  {
    [0xe49b69c19ef14ad2, 0xefbe4786384f25e3, 0x0fc19dc68b8cd5b5, 0x240ca1cc77ac9c65,
     0x2de92c6f592b0275, 0x4a7484aa6ea6e483, 0x5cb0a9dcbd41fbd4, 0x76f988da831153b5]
  }

  function K3(): (k: seq<bv64>)
    ensures |k| == 8
  {
    [0x983e5152ee66dfab, 0xa831c66d2db43210, 0xb00327c898fb213f, 0xbf597fc7beef0ee4,
     0xc6e00bf33da88fc2, 0xd5a79147930aa725, 0x06ca6351e003826f, 0x142929670a0e6e70]
  }

  function K4(): (k: seq<bv64>)
    ensures |k| == 8
  {
    [0x27b70a8546d22ffc, 0x2e1b21385c26c926, 0x4d2c6dfc5ac42aed, 0x53380d139d95b3df,
     0x650a73548baf63de, 0x766a0abb3c77b2a8, 0x81c2c92e47edaee6, 0x92722c851482353b]
  }

  function K5(): (k: seq<bv64>)
    ensures |k| == 8
  {
    [0xa2bfe8a14cf10364, 0xa81a664bbc423001, 0xc24b8b70d0f89791, 0xc76c51a30654be30,
     0xd192e819d6ef5218, 0xd69906245565a910, 0xf40e35855771202a, 0x106aa07032bbd1b8]
  }

  function K6(): (k: seq<bv64>)
    ensures |k| == 8
  {
    [0x19a4c116b8d2d0c8, 0x1e376c085141ab53, 0x2748774cdf8eeb99, 0x34b0bcb5e19b48a8,
     0x391c0cb3c5c95a63, 0x4ed8aa4ae3418acb, 0x5b9cca4f7763e373, 0x682e6ff3d6b2b8a3]
  }

  function K7(): (k: seq<bv64>)
    ensures |k| == 8
  {
    [0x748f82ee5defb2fc, 0x78a5636f43172f60, 0x84c87814a1f0ab72, 0x8cc702081a6439ec,
     0x90befffa23631e28, 0xa4506cebde82bde9, 0xbef9a3f7b2c67915, 0xc67178f2e372532b]
  }

  function K8(): (k: seq<bv64>)
    ensures |k| == 8
  {
    [0xca273eceea26619c, 0xd186b8c721c0c207, 0xeada7dd6cde0eb1e, 0xf57d4f7fee6ed178,
     0x06f067aa72176fba, 0x0a637dc5a2c898a6, 0x113f9804bef90dae, 0x1b710b35131c471b]
  }

  function K9(): (k: seq<bv64>)
    ensures |k| == 8
  {
    [0x28db77f523047d84, 0x32caab7b40c72493, 0x3c9ebe0a15c9bebc, 0x431d67c49c100d4c,
     0x4cc5d4becb3e42b6, 0x597f299cfc657e2a, 0x5fcb6fab3ad6faec, 0x6c44198c4a475817]
  }

  datatype Regs = Regs(a: word, b: word, c: word, d: word, e: word, f: word, g: word, h: word)

  /** Section 5.3.5. */
  function InitialHash(): Regs {
    Regs(Word(0x6a09e667f3bcc908), Word(0xbb67ae8584caa73b), Word(0x3c6ef372fe94f82b), Word(0xa54ff53a5f1d36f1),
         Word(0x510e527fade682d1), Word(0x9b05688c2b3e6c1f), Word(0x1f83d9abfb41bd6b), Word(0x5be0cd19137e2179))
  }

  /** Section 5.3.4. */
  function InitialHash384(): Regs {
    Regs(Word(0xcbbb9d5dc1059ed8), Word(0x629a292a367cd507), Word(0x9159015a3070dd17), Word(0x152fecd8f70e5939),
         Word(0x67332667ffc00b31), Word(0x8eb44a8768581511), Word(0xdb0c2e0d64f98fa7), Word(0x47b5481dbefa4fa4))
  }

  /** Addition modulo 2^64. */
  function Plus(x: word, y: word): word { Word(x.bits + y.bits) }

  lemma PlusCommutes(x: word, y: word)
    ensures Plus(x, y) == Plus(y, x)
  {
  }

  function Ch(x: word, y: word, z: word): word { Word((x.bits & y.bits) ^ ((!x.bits) & z.bits)) }
  function Maj(x: word, y: word, z: word): word {
    Word((x.bits & y.bits) ^ (x.bits & z.bits) ^ (y.bits & z.bits))
  }

  /** Section 4.1.3, with the rotations of section 3.2. */
  function BigSigma0(x: word): word { Word(x.bits.RotateRight(28) ^ x.bits.RotateRight(34) ^ x.bits.RotateRight(39)) }
  function BigSigma1(x: word): word { Word(x.bits.RotateRight(14) ^ x.bits.RotateRight(18) ^ x.bits.RotateRight(41)) }
  function SmallSigma0(x: word): word { Word(x.bits.RotateRight(1) ^ x.bits.RotateRight(8) ^ (x.bits >> 7)) }
  function SmallSigma1(x: word): word { Word(x.bits.RotateRight(19) ^ x.bits.RotateRight(61) ^ (x.bits >> 6)) }

  function Expand(w16: word, w15: word, w7: word, w2: word): word {
    Plus(Plus(Plus(SmallSigma1(w2), w7), SmallSigma0(w15)), w16)
  }

  /** Section 6.4.2, step 1: the full message schedule of one block. */
  function Schedule(block: seq<word>, t: nat): word
    requires |block| == 16
  {
    if t < 16 then block[t]
    else Expand(Schedule(block, t - 16), Schedule(block, t - 15), Schedule(block, t - 7), Schedule(block, t - 2))
  }

  /** Step 3: one round. */
  function Round(r: Regs, k: word, w: word): Regs {
    var t1 := Plus(Plus(Plus(Plus(r.h, BigSigma1(r.e)), Ch(r.e, r.f, r.g)), k), w);
    var t2 := Plus(BigSigma0(r.a), Maj(r.a, r.b, r.c));
    Regs(Plus(t1, t2), r.a, r.b, r.c, Plus(r.d, t1), r.e, r.f, r.g)
  }

  function Rounds(r: Regs, block: seq<word>, t: nat): Regs
    requires |block| == 16 && t <= ROUNDS
  {
    if t == 0 then r else Round(Rounds(r, block, t - 1), K(t - 1), Schedule(block, t - 1))
  }

  function Add(x: Regs, y: Regs): Regs {
    Regs(Plus(x.a, y.a), Plus(x.b, y.b), Plus(x.c, y.c), Plus(x.d, y.d),
         Plus(x.e, y.e), Plus(x.f, y.f), Plus(x.g, y.g), Plus(x.h, y.h))
  }

  function Byte7(w: word): byte { ((w.bits >> 56) & 0xff) as byte }
  function Byte6(w: word): byte { ((w.bits >> 48) & 0xff) as byte }
  function Byte5(w: word): byte { ((w.bits >> 40) & 0xff) as byte }
  function Byte4(w: word): byte { ((w.bits >> 32) & 0xff) as byte }
  function Byte3(w: word): byte { ((w.bits >> 24) & 0xff) as byte }
  function Byte2(w: word): byte { ((w.bits >> 16) & 0xff) as byte }
  function Byte1(w: word): byte { ((w.bits >> 8) & 0xff) as byte }
  function Byte0(w: word): byte { (w.bits & 0xff) as byte }

  /** The eight bytes of a word, most significant first, and back (section 3.1). */
  function WordBytes(w: word): (s: seq<byte>)
    ensures |s| == 8
  {
    [Byte7(w), Byte6(w), Byte5(w), Byte4(w), Byte3(w), Byte2(w), Byte1(w), Byte0(w)]
  }

  function Join(a: byte, b: byte, c: byte, d: byte, e: byte, f: byte, g: byte, h: byte): word {
    Word(((a as bv64) << 56) | ((b as bv64) << 48) | ((c as bv64) << 40) | ((d as bv64) << 32)
         | ((e as bv64) << 24) | ((f as bv64) << 16) | ((g as bv64) << 8) | (h as bv64))
  }

  function BytesWord(s: seq<byte>): word
    requires |s| == 8
  {
    Join(s[0], s[1], s[2], s[3], s[4], s[5], s[6], s[7])
  }

  function BlockWords(s: seq<byte>): (w: seq<word>)
    requires |s| == BLOCK
    ensures |w| == 16
    ensures forall i :: 0 <= i < 16 ==> w[i] == BytesWord(s[8 * i..8 * i + 8])
  {
    seq(16, i requires 0 <= i < 16 => BytesWord(s[8 * i..8 * i + 8]))
  }

  /** Steps 2 to 4 for one block. */
  function Compress(h: Regs, s: seq<byte>): Regs {
    if |s| != BLOCK then h else Add(h, Rounds(h, BlockWords(s), ROUNDS))
  }

  /** The words as bytes, each most significant byte first. */
  function WordsBytes(ws: seq<word>): (s: seq<byte>)
    ensures |s| == 8 * |ws|
  {
    if ws == [] then [] else WordsBytes(ws[..|ws| - 1]) + WordBytes(ws[|ws| - 1])
  }

  function Words(h: Regs): (ws: seq<word>)
    ensures |ws| == 8
  {
    [h.a, h.b, h.c, h.d, h.e, h.f, h.g, h.h]
  }

  /** Section 5.1.2: the length field is the 128-bit number of message bits. */
  function Padded(msg: seq<byte>): seq<byte> {
    Pad(msg, BLOCK, BigEndian(8 * |msg| % 0x1_0000_0000_0000_0000_0000_0000_0000_0000, 16))
  }

  /** Section 6.4, for a message of whole bytes. */
  function Hash(msg: seq<byte>): seq<byte> {
    WordsBytes(Words(Blocks(Compress, InitialHash(), Padded(msg), BLOCK)))
  }

  /** Section 6.5: another initial value, and the first six words. */
  function Hash384(msg: seq<byte>): seq<byte> {
    WordsBytes(Words(Blocks(Compress, InitialHash384(), Padded(msg), BLOCK))[..6])
  }

  // ---------------------------------------------------------------- the program's own word operations

  /** The macros Sigma0_512 to sigma1_512, written with shifts. */
  function MacroBig0(x: word): word {
    var b := x.bits;
    Word(((b >> 28) | (b << 36)) ^ ((b >> 34) | (b << 30)) ^ ((b >> 39) | (b << 25)))
  }
  function MacroBig1(x: word): word {
    var b := x.bits;
    Word(((b >> 14) | (b << 50)) ^ ((b >> 18) | (b << 46)) ^ ((b >> 41) | (b << 23)))
  }
  function MacroSmall0(x: word): word {
    var b := x.bits;
    Word(((b >> 1) | (b << 63)) ^ ((b >> 8) | (b << 56)) ^ (b >> 7))
  }
  function MacroSmall1(x: word): word {
    var b := x.bits;
    Word(((b >> 19) | (b << 45)) ^ ((b >> 61) | (b << 3)) ^ (b >> 6))
  }

  lemma Macros(x: word)
    ensures MacroBig0(x) == BigSigma0(x) && MacroBig1(x) == BigSigma1(x)
    ensures MacroSmall0(x) == SmallSigma0(x) && MacroSmall1(x) == SmallSigma1(x)
  {
  }

  /** reverse_64bit of the program. */
  function Reverse64(data: word): word {
    var d := (data.bits >> 32) | (data.bits << 32);
    var e := ((d & 0xff00ff00ff00ff00) >> 8) | ((d & 0x00ff00ff00ff00ff) << 8);
    Word(((e & 0xffff0000ffff0000) >> 16) | ((e & 0x0000ffff0000ffff) << 16))
  }

  /** What a host of either byte order keeps in memory for a word, and reads from memory. */
  function Stored(w: word, bigEndian: bool): (s: seq<byte>)
    ensures |s| == 8
  {
    var s := WordBytes(w);
    if bigEndian then s else [s[7], s[6], s[5], s[4], s[3], s[2], s[1], s[0]]
  }

  function Loaded(s: seq<byte>, bigEndian: bool): word
    requires |s| == 8
  {
    BytesWord(if bigEndian then s else [s[7], s[6], s[5], s[4], s[3], s[2], s[1], s[0]])
  }

  function ToBigEndian(w: word, bigEndian: bool): word {
    if bigEndian then w else Reverse64(w)
  }

  lemma JoinParts(w: word)
    ensures Join(Byte7(w), Byte6(w), Byte5(w), Byte4(w), Byte3(w), Byte2(w), Byte1(w), Byte0(w)) == w
  {
  }

  lemma PartsOfJoin(a: byte, b: byte, c: byte, d: byte, e: byte, f: byte, g: byte, h: byte)
    ensures var w := Join(a, b, c, d, e, f, g, h);
      && Byte7(w) == a && Byte6(w) == b && Byte5(w) == c && Byte4(w) == d
      && Byte3(w) == e && Byte2(w) == f && Byte1(w) == g && Byte0(w) == h
  {
  }

  lemma ReverseJoin(a: byte, b: byte, c: byte, d: byte, e: byte, f: byte, g: byte, h: byte)
    ensures Reverse64(Join(h, g, f, e, d, c, b, a)) == Join(a, b, c, d, e, f, g, h)
  {
  }

  lemma LoadStored(w: word, bigEndian: bool)
    ensures Loaded(Stored(w, bigEndian), bigEndian) == w
  {
    hide Join, Byte7, Byte6, Byte5, Byte4, Byte3, Byte2, Byte1, Byte0;
    JoinParts(w);
  }

  /** Loading and converting gives the big-endian word on either host ... */
  lemma LoadBigEndian(s: seq<byte>, bigEndian: bool)
    requires |s| == 8
    ensures ToBigEndian(Loaded(s, bigEndian), bigEndian) == BytesWord(s)
  {
    hide Join, Reverse64, Byte7, Byte6, Byte5, Byte4, Byte3, Byte2, Byte1, Byte0;
    ReverseJoin(s[0], s[1], s[2], s[3], s[4], s[5], s[6], s[7]);
  }

  /** ... and converting and storing leaves the big-endian bytes. */
  lemma StoreBigEndian(w: word, bigEndian: bool)
    ensures Stored(ToBigEndian(w, bigEndian), bigEndian) == WordBytes(w)
  {
    hide Join, Reverse64, Byte7, Byte6, Byte5, Byte4, Byte3, Byte2, Byte1, Byte0;
    var s := WordBytes(w);
    JoinParts(w);
    ReverseJoin(s[7], s[6], s[5], s[4], s[3], s[2], s[1], s[0]);
    PartsOfJoin(s[7], s[6], s[5], s[4], s[3], s[2], s[1], s[0]);
    assert w == Join(s[0], s[1], s[2], s[3], s[4], s[5], s[6], s[7]);
  }
}
