/** The constants of SHA-256, SHA-384 and SHA-512 are what FIPS 180-4 says: the first bits of the fractional parts
    of the roots of the first prime numbers. */
module ShaConstants {
  import opened Primes
  import Sha256
  import Sha512

  function Cube(n: nat): nat {
    n * n * n
  }

  function Square(n: nat): nat {
    n * n
  }

  /** k is the fractional part of the cube root of p, in units of 1 / unit and rounded down. */
  ghost predicate IsCubeRoot(p: nat, k: nat, unit: nat) {
    k < unit && exists whole :: 0 <= whole < 8 && CubeOf(p, whole, k, unit)
  }

  predicate CubeOf(p: nat, whole: nat, k: nat, unit: nat) {
    Cube(whole * unit + k) <= p * Cube(unit) < Cube(whole * unit + k + 1)
  }

  /** The same for the square root. */
  ghost predicate IsSquareRoot(p: nat, k: nat, unit: nat) {
    k < unit && exists whole :: 0 <= whole < 8 && SquareOf(p, whole, k, unit)
  }

  predicate SquareOf(p: nat, whole: nat, k: nat, unit: nat) {
    Square(whole * unit + k) <= p * Square(unit) < Square(whole * unit + k + 1)
  }

  const UNIT32 := 0x1_0000_0000
  const UNIT64 := 0x1_0000_0000_0000_0000

  // ---------------------------------------------------------------- SHA-256

  ghost predicate Row256(p: seq<nat>, k: seq<bv32>) {
    |p| == |k| == 8 && forall i :: 0 <= i < 8 ==> IsCubeRoot(p[i], k[i] as nat, UNIT32)
  }

  lemma Roots256Row0()
    ensures Row256(P0(), Sha256.K0())
  {
    assert CubeOf(2, 1, 0x428a2f98, UNIT32);
    assert CubeOf(3, 1, 0x71374491, UNIT32);
    assert CubeOf(5, 1, 0xb5c0fbcf, UNIT32);
    assert CubeOf(7, 1, 0xe9b5dba5, UNIT32);
    assert CubeOf(11, 2, 0x3956c25b, UNIT32);
    assert CubeOf(13, 2, 0x59f111f1, UNIT32);
    assert CubeOf(17, 2, 0x923f82a4, UNIT32);
    assert CubeOf(19, 2, 0xab1c5ed5, UNIT32);
  }

  lemma Roots256Row1()
    ensures Row256(P1(), Sha256.K1())
  {
    assert CubeOf(23, 2, 0xd807aa98, UNIT32);
    assert CubeOf(29, 3, 0x12835b01, UNIT32);
    assert CubeOf(31, 3, 0x243185be, UNIT32);
    assert CubeOf(37, 3, 0x550c7dc3, UNIT32);
    assert CubeOf(41, 3, 0x72be5d74, UNIT32);
    assert CubeOf(43, 3, 0x80deb1fe, UNIT32);
    assert CubeOf(47, 3, 0x9bdc06a7, UNIT32);
    assert CubeOf(53, 3, 0xc19bf174, UNIT32);
  }

  lemma Roots256Row2()
    ensures Row256(P2(), Sha256.K2())
  {
    assert CubeOf(59, 3, 0xe49b69c1, UNIT32);
    assert CubeOf(61, 3, 0xefbe4786, UNIT32);
    assert CubeOf(67, 4, 0x0fc19dc6, UNIT32);
    assert CubeOf(71, 4, 0x240ca1cc, UNIT32);
    assert CubeOf(73, 4, 0x2de92c6f, UNIT32);
    assert CubeOf(79, 4, 0x4a7484aa, UNIT32);
    assert CubeOf(83, 4, 0x5cb0a9dc, UNIT32);
    assert CubeOf(89, 4, 0x76f988da, UNIT32);
  }

  lemma Roots256Row3()
    ensures Row256(P3(), Sha256.K3())
  {
    assert CubeOf(97, 4, 0x983e5152, UNIT32);
    assert CubeOf(101, 4, 0xa831c66d, UNIT32);
    assert CubeOf(103, 4, 0xb00327c8, UNIT32);
    assert CubeOf(107, 4, 0xbf597fc7, UNIT32);
    assert CubeOf(109, 4, 0xc6e00bf3, UNIT32);
    assert CubeOf(113, 4, 0xd5a79147, UNIT32);
    assert CubeOf(127, 5, 0x06ca6351, UNIT32);
    assert CubeOf(131, 5, 0x14292967, UNIT32);
  }

  lemma Roots256Row4()
    ensures Row256(P4(), Sha256.K4())
  {
    assert CubeOf(137, 5, 0x27b70a85, UNIT32);
    assert CubeOf(139, 5, 0x2e1b2138, UNIT32);
    assert CubeOf(149, 5, 0x4d2c6dfc, UNIT32);
    assert CubeOf(151, 5, 0x53380d13, UNIT32);
    assert CubeOf(157, 5, 0x650a7354, UNIT32);
    assert CubeOf(163, 5, 0x766a0abb, UNIT32);
    assert CubeOf(167, 5, 0x81c2c92e, UNIT32);
    assert CubeOf(173, 5, 0x92722c85, UNIT32);
  }

  lemma Roots256Row5()
    ensures Row256(P5(), Sha256.K5())
  {
    assert CubeOf(179, 5, 0xa2bfe8a1, UNIT32);
    assert CubeOf(181, 5, 0xa81a664b, UNIT32);
    assert CubeOf(191, 5, 0xc24b8b70, UNIT32);
    assert CubeOf(193, 5, 0xc76c51a3, UNIT32);
    assert CubeOf(197, 5, 0xd192e819, UNIT32);
    assert CubeOf(199, 5, 0xd6990624, UNIT32);
    assert CubeOf(211, 5, 0xf40e3585, UNIT32);
    assert CubeOf(223, 6, 0x106aa070, UNIT32);
  }

  lemma Roots256Row6()
    ensures Row256(P6(), Sha256.K6())
  {
    assert CubeOf(227, 6, 0x19a4c116, UNIT32);
    assert CubeOf(229, 6, 0x1e376c08, UNIT32);
    assert CubeOf(233, 6, 0x2748774c, UNIT32);
    assert CubeOf(239, 6, 0x34b0bcb5, UNIT32);
    assert CubeOf(241, 6, 0x391c0cb3, UNIT32);
    assert CubeOf(251, 6, 0x4ed8aa4a, UNIT32);
    assert CubeOf(257, 6, 0x5b9cca4f, UNIT32);
    assert CubeOf(263, 6, 0x682e6ff3, UNIT32);
  }

  lemma Roots256Row7()
    ensures Row256(P7(), Sha256.K7())
  {
    assert CubeOf(269, 6, 0x748f82ee, UNIT32);
    assert CubeOf(271, 6, 0x78a5636f, UNIT32);
    assert CubeOf(277, 6, 0x84c87814, UNIT32);
    assert CubeOf(281, 6, 0x8cc70208, UNIT32);
    assert CubeOf(283, 6, 0x90befffa, UNIT32);
    assert CubeOf(293, 6, 0xa4506ceb, UNIT32);
    assert CubeOf(307, 6, 0xbef9a3f7, UNIT32);
    assert CubeOf(311, 6, 0xc67178f2, UNIT32);
  }

  /** Section 4.2.2: constant t comes from the cube root of the prime number with t smaller ones. */
  lemma CubeRoots256(t: nat)
    requires t < Sha256.ROUNDS
    ensures IsPrime(Prime(t)) && PrimesBelow(Prime(t)) == t
    ensures IsCubeRoot(Prime(t), Sha256.K(t).bits as nat, UNIT32)
  {
    hide IsPrime, PrimesBelow, IsCubeRoot;
    FirstPrimes(t);
    Rows256(t / 8);
  }

  lemma Rows256(r: nat)
    requires r < 8
    ensures Row256(PrimeRow(r), Sha256.KRow(r))
  {
    hide Row256, P0, P1, P2, P3, P4, P5, P6, P7;
    hide Sha256.K0, Sha256.K1, Sha256.K2, Sha256.K3, Sha256.K4, Sha256.K5, Sha256.K6, Sha256.K7;
    Roots256Row0();
    Roots256Row1();
    Roots256Row2();
    Roots256Row3();
    Roots256Row4();
    Roots256Row5();
    Roots256Row6();
    Roots256Row7();
  }

  /** Section 5.3.3: the initial hash value comes from the square roots of the first eight. */
  lemma SquareRoots256(i: nat)
    requires i < 8
    ensures IsPrime(Prime(i)) && PrimesBelow(Prime(i)) == i
    ensures IsSquareRoot(Prime(i), Sha256.Words(Sha256.InitialHash())[i].bits as nat, UNIT32)
  {
    hide IsPrime, PrimesBelow;
    FirstPrimes(i);
    assert SquareOf(2, 1, 0x6a09e667, UNIT32);
    assert SquareOf(3, 1, 0xbb67ae85, UNIT32);
    assert SquareOf(5, 2, 0x3c6ef372, UNIT32);
    assert SquareOf(7, 2, 0xa54ff53a, UNIT32);
    assert SquareOf(11, 3, 0x510e527f, UNIT32);
    assert SquareOf(13, 3, 0x9b05688c, UNIT32);
    assert SquareOf(17, 4, 0x1f83d9ab, UNIT32);
    assert SquareOf(19, 4, 0x5be0cd19, UNIT32);
  }

  // ---------------------------------------------------------------- SHA-512 and SHA-384

  ghost predicate Row512(p: seq<nat>, k: seq<bv64>) {
    |p| == |k| == 8 && forall i :: 0 <= i < 8 ==> IsCubeRoot(p[i], k[i] as nat, UNIT64)
  }

  lemma Roots512Row0()
    ensures Row512(P0(), Sha512.K0())
  {
    assert CubeOf(2, 1, 0x428a2f98d728ae22, UNIT64);
    assert CubeOf(3, 1, 0x7137449123ef65cd, UNIT64);
    assert CubeOf(5, 1, 0xb5c0fbcfec4d3b2f, UNIT64);
    assert CubeOf(7, 1, 0xe9b5dba58189dbbc, UNIT64);
    assert CubeOf(11, 2, 0x3956c25bf348b538, UNIT64);
    assert CubeOf(13, 2, 0x59f111f1b605d019, UNIT64);
    assert CubeOf(17, 2, 0x923f82a4af194f9b, UNIT64);
    assert CubeOf(19, 2, 0xab1c5ed5da6d8118, UNIT64);
  }

  lemma Roots512Row1()
    ensures Row512(P1(), Sha512.K1())
  {
    assert CubeOf(23, 2, 0xd807aa98a3030242, UNIT64);
    assert CubeOf(29, 3, 0x12835b0145706fbe, UNIT64);
    assert CubeOf(31, 3, 0x243185be4ee4b28c, UNIT64);
    assert CubeOf(37, 3, 0x550c7dc3d5ffb4e2, UNIT64);
    assert CubeOf(41, 3, 0x72be5d74f27b896f, UNIT64);
    assert CubeOf(43, 3, 0x80deb1fe3b1696b1, UNIT64);
    assert CubeOf(47, 3, 0x9bdc06a725c71235, UNIT64);
    assert CubeOf(53, 3, 0xc19bf174cf692694, UNIT64);
  }

  lemma Roots512Row2()
    ensures Row512(P2(), Sha512.K2())
  {
    assert CubeOf(59, 3, 0xe49b69c19ef14ad2, UNIT64);
    assert CubeOf(61, 3, 0xefbe4786384f25e3, UNIT64);
    assert CubeOf(67, 4, 0x0fc19dc68b8cd5b5, UNIT64);
    assert CubeOf(71, 4, 0x240ca1cc77ac9c65, UNIT64);
    assert CubeOf(73, 4, 0x2de92c6f592b0275, UNIT64);
    assert CubeOf(79, 4, 0x4a7484aa6ea6e483, UNIT64);
    assert CubeOf(83, 4, 0x5cb0a9dcbd41fbd4, UNIT64);
    assert CubeOf(89, 4, 0x76f988da831153b5, UNIT64);
  }

  lemma Roots512Row3()
    ensures Row512(P3(), Sha512.K3())
  {
    assert CubeOf(97, 4, 0x983e5152ee66dfab, UNIT64);
    assert CubeOf(101, 4, 0xa831c66d2db43210, UNIT64);
    assert CubeOf(103, 4, 0xb00327c898fb213f, UNIT64);
    assert CubeOf(107, 4, 0xbf597fc7beef0ee4, UNIT64);
    assert CubeOf(109, 4, 0xc6e00bf33da88fc2, UNIT64);
    assert CubeOf(113, 4, 0xd5a79147930aa725, UNIT64);
    assert CubeOf(127, 5, 0x06ca6351e003826f, UNIT64);
    assert CubeOf(131, 5, 0x142929670a0e6e70, UNIT64);
  }

  lemma Roots512Row4()
    ensures Row512(P4(), Sha512.K4())
  {
    assert CubeOf(137, 5, 0x27b70a8546d22ffc, UNIT64);
    assert CubeOf(139, 5, 0x2e1b21385c26c926, UNIT64);
    assert CubeOf(149, 5, 0x4d2c6dfc5ac42aed, UNIT64);
    assert CubeOf(151, 5, 0x53380d139d95b3df, UNIT64);
    assert CubeOf(157, 5, 0x650a73548baf63de, UNIT64);
    assert CubeOf(163, 5, 0x766a0abb3c77b2a8, UNIT64);
    assert CubeOf(167, 5, 0x81c2c92e47edaee6, UNIT64);
    assert CubeOf(173, 5, 0x92722c851482353b, UNIT64);
  }

  lemma Roots512Row5()
    ensures Row512(P5(), Sha512.K5())
  {
    assert CubeOf(179, 5, 0xa2bfe8a14cf10364, UNIT64);
    assert CubeOf(181, 5, 0xa81a664bbc423001, UNIT64);
    assert CubeOf(191, 5, 0xc24b8b70d0f89791, UNIT64);
    assert CubeOf(193, 5, 0xc76c51a30654be30, UNIT64);
    assert CubeOf(197, 5, 0xd192e819d6ef5218, UNIT64);
    assert CubeOf(199, 5, 0xd69906245565a910, UNIT64);
    assert CubeOf(211, 5, 0xf40e35855771202a, UNIT64);
    assert CubeOf(223, 6, 0x106aa07032bbd1b8, UNIT64);
  }

  lemma Roots512Row6()
    ensures Row512(P6(), Sha512.K6())
  {
    assert CubeOf(227, 6, 0x19a4c116b8d2d0c8, UNIT64);
    assert CubeOf(229, 6, 0x1e376c085141ab53, UNIT64);
    assert CubeOf(233, 6, 0x2748774cdf8eeb99, UNIT64);
    assert CubeOf(239, 6, 0x34b0bcb5e19b48a8, UNIT64);
    assert CubeOf(241, 6, 0x391c0cb3c5c95a63, UNIT64);
    assert CubeOf(251, 6, 0x4ed8aa4ae3418acb, UNIT64);
    assert CubeOf(257, 6, 0x5b9cca4f7763e373, UNIT64);
    assert CubeOf(263, 6, 0x682e6ff3d6b2b8a3, UNIT64);
  }

  lemma Roots512Row7()
    ensures Row512(P7(), Sha512.K7())
  {
    assert CubeOf(269, 6, 0x748f82ee5defb2fc, UNIT64);
    assert CubeOf(271, 6, 0x78a5636f43172f60, UNIT64);
    assert CubeOf(277, 6, 0x84c87814a1f0ab72, UNIT64);
    assert CubeOf(281, 6, 0x8cc702081a6439ec, UNIT64);
    assert CubeOf(283, 6, 0x90befffa23631e28, UNIT64);
    assert CubeOf(293, 6, 0xa4506cebde82bde9, UNIT64);
    assert CubeOf(307, 6, 0xbef9a3f7b2c67915, UNIT64);
    assert CubeOf(311, 6, 0xc67178f2e372532b, UNIT64);
  }

  lemma Roots512Row8()
    ensures Row512(P8(), Sha512.K8())
  {
    assert CubeOf(313, 6, 0xca273eceea26619c, UNIT64);
    assert CubeOf(317, 6, 0xd186b8c721c0c207, UNIT64);
    assert CubeOf(331, 6, 0xeada7dd6cde0eb1e, UNIT64);
    assert CubeOf(337, 6, 0xf57d4f7fee6ed178, UNIT64);
    assert CubeOf(347, 7, 0x06f067aa72176fba, UNIT64);
    assert CubeOf(349, 7, 0x0a637dc5a2c898a6, UNIT64);
    assert CubeOf(353, 7, 0x113f9804bef90dae, UNIT64);
    assert CubeOf(359, 7, 0x1b710b35131c471b, UNIT64);
  }

  lemma Roots512Row9()
    ensures Row512(P9(), Sha512.K9())
  {
    assert CubeOf(367, 7, 0x28db77f523047d84, UNIT64);
    assert CubeOf(373, 7, 0x32caab7b40c72493, UNIT64);
    assert CubeOf(379, 7, 0x3c9ebe0a15c9bebc, UNIT64);
    assert CubeOf(383, 7, 0x431d67c49c100d4c, UNIT64);
    assert CubeOf(389, 7, 0x4cc5d4becb3e42b6, UNIT64);
    assert CubeOf(397, 7, 0x597f299cfc657e2a, UNIT64);
    assert CubeOf(401, 7, 0x5fcb6fab3ad6faec, UNIT64);
    assert CubeOf(409, 7, 0x6c44198c4a475817, UNIT64);
  }

  /** Section 4.2.3, with eighty prime numbers. */
  lemma CubeRoots512(t: nat)
    requires t < Sha512.ROUNDS
    ensures IsPrime(Prime(t)) && PrimesBelow(Prime(t)) == t
    ensures IsCubeRoot(Prime(t), Sha512.K(t).bits as nat, UNIT64)
  {
    hide IsPrime, PrimesBelow, IsCubeRoot;
    FirstPrimes(t);
    Rows512(t / 8);
  }

  lemma Rows512(r: nat)
    requires r < 10
    ensures Row512(PrimeRow(r), Sha512.KRow(r))
  {
    hide Row512, P0, P1, P2, P3, P4, P5, P6, P7, P8, P9;
    hide Sha512.K0, Sha512.K1, Sha512.K2, Sha512.K3, Sha512.K4, Sha512.K5, Sha512.K6, Sha512.K7, Sha512.K8, Sha512.K9;
    Roots512Row0();
    Roots512Row1();
    Roots512Row2();
    Roots512Row3();
    Roots512Row4();
    Roots512Row5();
    Roots512Row6();
    Roots512Row7();
    Roots512Row8();
    Roots512Row9();
  }

  /** Section 5.3.5. */
  lemma SquareRoots512(i: nat)
    requires i < 8
    ensures IsPrime(Prime(i)) && PrimesBelow(Prime(i)) == i
    ensures IsSquareRoot(Prime(i), Sha512.Words(Sha512.InitialHash())[i].bits as nat, UNIT64)
  {
    hide IsPrime, PrimesBelow;
    FirstPrimes(i);
    assert SquareOf(2, 1, 0x6a09e667f3bcc908, UNIT64);
    assert SquareOf(3, 1, 0xbb67ae8584caa73b, UNIT64);
    assert SquareOf(5, 2, 0x3c6ef372fe94f82b, UNIT64);
    assert SquareOf(7, 2, 0xa54ff53a5f1d36f1, UNIT64);
    assert SquareOf(11, 3, 0x510e527fade682d1, UNIT64);
    assert SquareOf(13, 3, 0x9b05688c2b3e6c1f, UNIT64);
    assert SquareOf(17, 4, 0x1f83d9abfb41bd6b, UNIT64);
    assert SquareOf(19, 4, 0x5be0cd19137e2179, UNIT64);
  }

  /** Section 5.3.4: for SHA-384 the ninth to sixteenth. */
  lemma SquareRoots384(i: nat)
    requires i < 8
    ensures IsPrime(Prime(i + 8)) && PrimesBelow(Prime(i + 8)) == i + 8
    ensures IsSquareRoot(Prime(i + 8), Sha512.Words(Sha512.InitialHash384())[i].bits as nat, UNIT64)
  {
    hide IsPrime, PrimesBelow;
    FirstPrimes(i + 8);
    assert SquareOf(23, 4, 0xcbbb9d5dc1059ed8, UNIT64);
    assert SquareOf(29, 5, 0x629a292a367cd507, UNIT64);
    assert SquareOf(31, 5, 0x9159015a3070dd17, UNIT64);
    assert SquareOf(37, 6, 0x152fecd8f70e5939, UNIT64);
    assert SquareOf(41, 6, 0x67332667ffc00b31, UNIT64);
    assert SquareOf(43, 6, 0x8eb44a8768581511, UNIT64);
    assert SquareOf(47, 6, 0xdb0c2e0d64f98fa7, UNIT64);
    assert SquareOf(53, 7, 0x47b5481dbefa4fa4, UNIT64);
  }
}
