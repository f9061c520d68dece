/** The prime numbers that the constants of SHA-256, SHA-384 and SHA-512 are made of. */
module Primes {

  predicate IsPrime(n: nat) {
    n >= 2 && forall d :: 2 <= d < n ==> n % d != 0
  }

  /** How many prime numbers are smaller than n. */
  function PrimesBelow(n: nat): nat {
    if n == 0 then 0 else PrimesBelow(n - 1) + if IsPrime(n - 1) then 1 else 0
  }

  /** The first eighty prime numbers, by eights. */
  function Prime(t: nat): nat
    requires t < 80
  {
    PrimeRow(t / 8)[t % 8]
  }

  function PrimeRow(i: nat): (p: seq<nat>)
    ensures |p| == 8
  {
    if i == 0 then P0()
    else if i == 1 then P1()
    else if i == 2 then P2()
    else if i == 3 then P3()
    else if i == 4 then P4()
    else if i == 5 then P5()
    else if i == 6 then P6()
    else if i == 7 then P7()
    else if i == 8 then P8()
    else P9()
  }

  function P0(): (p: seq<nat>)
    ensures |p| == 8
  {
    [2, 3, 5, 7, 11, 13, 17, 19]
  }

  function P1(): (p: seq<nat>)
    ensures |p| == 8
  {
    [23, 29, 31, 37, 41, 43, 47, 53]
  }

  function P2(): (p: seq<nat>)
    ensures |p| == 8
  {
    [59, 61, 67, 71, 73, 79, 83, 89]
  }

  function P3(): (p: seq<nat>)
    ensures |p| == 8
  {
    [97, 101, 103, 107, 109, 113, 127, 131]
  }

  function P4(): (p: seq<nat>)
    ensures |p| == 8
  {
    [137, 139, 149, 151, 157, 163, 167, 173]
  }

  function P5(): (p: seq<nat>)
    ensures |p| == 8
  {
    [179, 181, 191, 193, 197, 199, 211, 223]
  }

  function P6(): (p: seq<nat>)
    ensures |p| == 8
  {
    [227, 229, 233, 239, 241, 251, 257, 263]
  }

  function P7(): (p: seq<nat>)
    ensures |p| == 8
  {
    [269, 271, 277, 281, 283, 293, 307, 311]
  }

  function P8(): (p: seq<nat>)
    ensures |p| == 8
  {
    [313, 317, 331, 337, 347, 349, 353, 359]
  }

  function P9(): (p: seq<nat>)
    ensures |p| == 8
  {
    [367, 373, 379, 383, 389, 397, 401, 409]
  }

  // ---------------------------------------------------------------- below 441 = 21 * 21

  /** No prime number up to 19 divides n, but n itself. */
  predicate Sifted(n: nat) {
    && n >= 2
    && (n % 2 != 0 || n == 2) && (n % 3 != 0 || n == 3) && (n % 5 != 0 || n == 5) && (n % 7 != 0 || n == 7)
    && (n % 11 != 0 || n == 11) && (n % 13 != 0 || n == 13) && (n % 17 != 0 || n == 17) && (n % 19 != 0 || n == 19)
  }

  lemma DividesOn(n: nat, m: nat, q: nat)
    requires m > 0 && q > 0 && n % m == 0 && m % q == 0
    ensures n % q == 0
  {
    var a, b := n / m, m / q;
    assert n == a * m && m == b * q;
    assert n == (a * b) * q;
    MultipleDivides(a * b, q);
  }

  lemma MultipleDivides(a: nat, q: nat)
    requires q > 0
    ensures (a * q) % q == 0
  {
    Quotient(a * q, q, a);
  }

  lemma AtLeast(a: nat, b: nat, q: nat)
    requires a >= b
    ensures a * q >= b * q
  {
  }

  lemma Quotient(n: nat, q: nat, a: nat)
    requires q > 0 && n == a * q
    ensures n % q == 0
  {
    var b, r := n / q, n % q;
    assert n == b * q + r;
    if a > b {
      AtLeast(a, b + 1, q);
    } else if a < b {
      AtLeast(b, a + 1, q);
    }
  }

  /** Every number from 2 to 20 has one of these divisors. */
  lemma SmallPrime(m: nat) returns (q: nat)
    requires 2 <= m <= 20
    ensures q in {2, 3, 5, 7, 11, 13, 17, 19} && q <= m && m % q == 0
  {
    q := if m % 2 == 0 then 2 else if m % 3 == 0 then 3 else if m % 5 == 0 then 5 else m;
  }

  lemma DivisorSifts(n: nat, q: nat)
    requires q in {2, 3, 5, 7, 11, 13, 17, 19} && q < n && n % q == 0
    ensures !Sifted(n)
  {
    if q == 2 {
    } else if q == 3 {
    } else if q == 5 {
    } else if q == 7 {
    } else if q == 11 {
    } else if q == 13 {
    } else if q == 17 {
    } else {
      assert q == 19;
    }
  }

  lemma SmallDivisor(n: nat, m: nat)
    requires 2 <= m <= 20 && m < n && n % m == 0
    ensures !Sifted(n)
  {
    hide Sifted;
    var q := SmallPrime(m);
    DividesOn(n, m, q);
    DivisorSifts(n, q);
  }

  /** Of two factors of a number below 441 one is at most 20. */
  lemma CompositeNotSifted(n: nat, d: nat)
    requires n < 441 && 2 <= d < n && n % d == 0
    ensures !Sifted(n)
  {
    var e := n / d;
    assert n == e * d;
    if d <= 20 {
      SmallDivisor(n, d);
    } else {
      if e > 20 {
        AtLeast(e, 21, d);
        assert false;
      }
      assert e >= 2;
      Quotient(n, e, d);
      SmallDivisor(n, e);
    }
  }

  lemma PrimeIsSifted(n: nat)
    requires n < 441
    ensures IsPrime(n) <==> Sifted(n)
  {
    if n >= 2 && !IsPrime(n) {
      var d :| 2 <= d < n && n % d == 0;
      CompositeNotSifted(n, d);
    }
  }

  // ---------------------------------------------------------------- the first eighty

  /** There are t prime numbers below the odd number n. */
  ghost predicate Counted(t: nat, n: nat) {
    n % 2 == 1 && PrimesBelow(n) == t
  }

  /** The number n is the prime number behind t others. */
  ghost predicate Follows(t: nat, n: nat) {
    IsPrime(n) && PrimesBelow(n) == t
  }

  lemma EvenIsNone(n: nat)
    requires n % 2 == 0 && n > 2
    ensures !IsPrime(n)
  {
  }

  /** An odd number with a divisor. */
  lemma Skips(t: nat, n: nat, d: nat)
    requires Counted(t, n) && 2 <= d < n && n % d == 0
    ensures Counted(t, n + 2)
  {
    EvenIsNone(n + 1);
    assert !IsPrime(n);
    assert PrimesBelow(n + 2) == PrimesBelow(n + 1) == PrimesBelow(n);
  }

  /** A prime number, other than 2. */
  lemma Hits(t: nat, n: nat)
    requires Counted(t, n) && 2 < n < 441 && Sifted(n)
    ensures Follows(t, n) && Counted(t + 1, n + 2)
  {
    hide Sifted, IsPrime;
    PrimeIsSifted(n);
    EvenIsNone(n + 1);
    assert PrimesBelow(n + 2) == PrimesBelow(n + 1) == PrimesBelow(n) + 1;
  }

  lemma Two()
    ensures Follows(0, 2) && Counted(1, 3)
  {
    assert !IsPrime(0) && !IsPrime(1) && IsPrime(2);
    assert PrimesBelow(1) == PrimesBelow(0) == 0;
    assert PrimesBelow(2) == PrimesBelow(1);
    assert PrimesBelow(3) == PrimesBelow(2) + 1;
  }

  /** A row of the table. */
  ghost predicate RowIs(r: nat, p: seq<nat>) {
    && |p| == 8 && (forall k :: 0 <= k < 8 ==> Follows(8 * r + k, p[k]))
    && Counted(8 * r + 8, p[7] + 2)
  }

  lemma Row0()
    ensures RowIs(0, P0())
  {
    hide Counted, Follows;
    Two();
    Hits(1, 3);
    Hits(2, 5);
    Hits(3, 7);
    Skips(4, 9, 3);
    Hits(4, 11);
    Hits(5, 13);
    Skips(6, 15, 3);
    Hits(6, 17);
    Hits(7, 19);
  }

  lemma Row1()
    requires RowIs(0, P0())
    ensures RowIs(1, P1())
  {
    hide Counted, Follows;
    Skips(8, 21, 3);
    Hits(8, 23);
    Skips(9, 25, 5);
    Skips(9, 27, 3);
    Hits(9, 29);
    Hits(10, 31);
    Skips(11, 33, 3);
    Skips(11, 35, 5);
    Hits(11, 37);
    Skips(12, 39, 3);
    Hits(12, 41);
    Hits(13, 43);
    Skips(14, 45, 3);
    Hits(14, 47);
    Skips(15, 49, 7);
    Skips(15, 51, 3);
    Hits(15, 53);
  }

  lemma Row2()
    requires RowIs(1, P1())
    ensures RowIs(2, P2())
  {
    hide Counted, Follows;
    Skips(16, 55, 5);
    Skips(16, 57, 3);
    Hits(16, 59);
    Hits(17, 61);
    Skips(18, 63, 3);
    Skips(18, 65, 5);
    Hits(18, 67);
    Skips(19, 69, 3);
    Hits(19, 71);
    Hits(20, 73);
    Skips(21, 75, 3);
    Skips(21, 77, 7);
    Hits(21, 79);
    Skips(22, 81, 3);
    Hits(22, 83);
    Skips(23, 85, 5);
    Skips(23, 87, 3);
    Hits(23, 89);
  }

  lemma Row3()
    requires RowIs(2, P2())
    ensures RowIs(3, P3())
  {
    hide Counted, Follows;
    Skips(24, 91, 7);
    Skips(24, 93, 3);
    Skips(24, 95, 5);
    Hits(24, 97);
    Skips(25, 99, 3);
    Hits(25, 101);
    Hits(26, 103);
    Skips(27, 105, 3);
    Hits(27, 107);
    Hits(28, 109);
    Skips(29, 111, 3);
    Hits(29, 113);
    Skips(30, 115, 5);
    Skips(30, 117, 3);
    Skips(30, 119, 7);
    Skips(30, 121, 11);
    Skips(30, 123, 3);
    Skips(30, 125, 5);
    Hits(30, 127);
    Skips(31, 129, 3);
    Hits(31, 131);
  }

  lemma Row4()
    requires RowIs(3, P3())
    ensures RowIs(4, P4())
  {
    hide Counted, Follows;
    Skips(32, 133, 7);
    Skips(32, 135, 3);
    Hits(32, 137);
    Hits(33, 139);
    Skips(34, 141, 3);
    Skips(34, 143, 11);
    Skips(34, 145, 5);
    Skips(34, 147, 3);
    Hits(34, 149);
    Hits(35, 151);
    Skips(36, 153, 3);
    Skips(36, 155, 5);
    Hits(36, 157);
    Skips(37, 159, 3);
    Skips(37, 161, 7);
    Hits(37, 163);
    Skips(38, 165, 3);
    Hits(38, 167);
    Skips(39, 169, 13);
    Skips(39, 171, 3);
    Hits(39, 173);
  }

  lemma Row5()
    requires RowIs(4, P4())
    ensures RowIs(5, P5())
  {
    hide Counted, Follows;
    Skips(40, 175, 5);
    Skips(40, 177, 3);
    Hits(40, 179);
    Hits(41, 181);
    Skips(42, 183, 3);
    Skips(42, 185, 5);
    Skips(42, 187, 11);
    Skips(42, 189, 3);
    Hits(42, 191);
    Hits(43, 193);
    Skips(44, 195, 3);
    Hits(44, 197);
    Hits(45, 199);
    Skips(46, 201, 3);
    Skips(46, 203, 7);
    Skips(46, 205, 5);
    Skips(46, 207, 3);
    Skips(46, 209, 11);
    Hits(46, 211);
    Skips(47, 213, 3);
    Skips(47, 215, 5);
    Skips(47, 217, 7);
    Skips(47, 219, 3);
    Skips(47, 221, 13);
    Hits(47, 223);
  }

  lemma Row6()
    requires RowIs(5, P5())
    ensures RowIs(6, P6())
  {
    hide Counted, Follows;
    Skips(48, 225, 3);
    Hits(48, 227);
    Hits(49, 229);
    Skips(50, 231, 3);
    Hits(50, 233);
    Skips(51, 235, 5);
    Skips(51, 237, 3);
    Hits(51, 239);
    Hits(52, 241);
    Skips(53, 243, 3);
    Skips(53, 245, 5);
    Skips(53, 247, 13);
    Skips(53, 249, 3);
    Hits(53, 251);
    Skips(54, 253, 11);
    Skips(54, 255, 3);
    Hits(54, 257);
    Skips(55, 259, 7);
    Skips(55, 261, 3);
    Hits(55, 263);
  }

  lemma Row7()
    requires RowIs(6, P6())
    ensures RowIs(7, P7())
  {
    hide Counted, Follows;
    Skips(56, 265, 5);
    Skips(56, 267, 3);
    Hits(56, 269);
    Hits(57, 271);
    Skips(58, 273, 3);
    Skips(58, 275, 5);
    Hits(58, 277);
    Skips(59, 279, 3);
    Hits(59, 281);
    Hits(60, 283);
    Skips(61, 285, 3);
    Skips(61, 287, 7);
    Skips(61, 289, 17);
    Skips(61, 291, 3);
    Hits(61, 293);
    Skips(62, 295, 5);
    Skips(62, 297, 3);
    Skips(62, 299, 13);
    Skips(62, 301, 7);
    Skips(62, 303, 3);
    Skips(62, 305, 5);
    Hits(62, 307);
    Skips(63, 309, 3);
    Hits(63, 311);
  }

  lemma Row8()
    requires RowIs(7, P7())
    ensures RowIs(8, P8())
  {
    hide Counted, Follows;
    Hits(64, 313);
    Skips(65, 315, 3);
    Hits(65, 317);
    Skips(66, 319, 11);
    Skips(66, 321, 3);
    Skips(66, 323, 17);
    Skips(66, 325, 5);
    Skips(66, 327, 3);
    Skips(66, 329, 7);
    Hits(66, 331);
    Skips(67, 333, 3);
    Skips(67, 335, 5);
    Hits(67, 337);
    Skips(68, 339, 3);
    Skips(68, 341, 11);
    Skips(68, 343, 7);
    Skips(68, 345, 3);
    Hits(68, 347);
    Hits(69, 349);
    Skips(70, 351, 3);
    Hits(70, 353);
    Skips(71, 355, 5);
    Skips(71, 357, 3);
    Hits(71, 359);
  }

  lemma Row9()
    requires RowIs(8, P8())
    ensures RowIs(9, P9())
  {
    hide Counted, Follows;
    Skips(72, 361, 19);
    Skips(72, 363, 3);
    Skips(72, 365, 5);
    Hits(72, 367);
    Skips(73, 369, 3);
    Skips(73, 371, 7);
    Hits(73, 373);
    Skips(74, 375, 3);
    Skips(74, 377, 13);
    Hits(74, 379);
    Skips(75, 381, 3);
    Hits(75, 383);
    Skips(76, 385, 5);
    Skips(76, 387, 3);
    Hits(76, 389);
    Skips(77, 391, 17);
    Skips(77, 393, 3);
    Skips(77, 395, 5);
    Hits(77, 397);
    Skips(78, 399, 3);
    Hits(78, 401);
    Skips(79, 403, 13);
    Skips(79, 405, 3);
    Skips(79, 407, 11);
    Hits(79, 409);
  }

  lemma RowsAre(r: nat)
    requires r < 10
    ensures RowIs(r, PrimeRow(r))
  {
    hide RowIs, P0, P1, P2, P3, P4, P5, P6, P7, P8, P9;
    Row0();
    Row1();
    Row2();
    Row3();
    Row4();
    Row5();
    Row6();
    Row7();
    Row8();
    Row9();
  }

  /** Prime(t) is the prime number with t smaller ones. */
  lemma FirstPrimes(t: nat)
    requires t < 80
    ensures IsPrime(Prime(t)) && PrimesBelow(Prime(t)) == t
  {
    hide IsPrime, PrimesBelow, PrimeRow, Counted;
    RowsAre(t / 8);
    assert Follows(8 * (t / 8) + t % 8, PrimeRow(t / 8)[t % 8]);
  }
}
