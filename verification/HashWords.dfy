/** 32-bit words and their bytes, as both hash functions use them. */
module HashWords {
  import opened Streaming

  /** A 32-bit word.  The wrapper keeps bit-vector reasoning inside the functions that need it. */
  datatype word = Word(bits: bv32)

  /** Addition modulo 2^32. */
  function Plus(x: word, y: word): word { Word(x.bits + y.bits) }

  lemma PlusCommutes(x: word, y: word)
    ensures Plus(x, y) == Plus(y, x)
  {
  }

  // ---------------------------------------------------------------- bytes

  function Byte3(w: word): byte { ((w.bits >> 24) & 0xff) as byte }
  function Byte2(w: word): byte { ((w.bits >> 16) & 0xff) as byte }
  function Byte1(w: word): byte { ((w.bits >> 8) & 0xff) as byte }
  function Byte0(w: word): byte { (w.bits & 0xff) as byte }

  function Join(a: byte, b: byte, c: byte, d: byte): word {
    Word(((a as bv32) << 24) | ((b as bv32) << 16) | ((c as bv32) << 8) | (d as bv32))
  }

  lemma JoinParts(w: word)
    ensures Join(Byte3(w), Byte2(w), Byte1(w), Byte0(w)) == w
  {
  }

  lemma PartsOfJoin(a: byte, b: byte, c: byte, d: byte)
    ensures Byte3(Join(a, b, c, d)) == a && Byte2(Join(a, b, c, d)) == b
    ensures Byte1(Join(a, b, c, d)) == c && Byte0(Join(a, b, c, d)) == d
  {
  }
}
