/** Code points as the program computes them, with shifts and masks on 32-bit words, and the numbers these
    stand for. */
module CjsonBits {
  function AsNat(c: bv32): nat {
    c as nat
  }

  function Digit(n: nat): bv32
    requires n < 16
  {
    n as bv32
  }

  lemma DigitNumber(n: nat)
    requires n < 16
    ensures AsNat(Digit(n)) == n && Digit(n) < 16 && AsNat(0) == 0
  {
  }

  /** Where the program compares a code point with a bound. */
  lemma Bounds(c: bv32)
    ensures c < 0x80 <==> AsNat(c) < 0x80
    ensures c < 0x800 <==> AsNat(c) < 0x800
    ensures c < 0x1_0000 <==> AsNat(c) < 0x1_0000
  {
  }

  /** Where it looks for surrogates. */
  lemma SurrogateBounds(c: bv32)
    ensures c < 0xd800 <==> AsNat(c) < 0xd800
    ensures c <= 0xdbff <==> AsNat(c) <= 0xdbff
    ensures c < 0xdc00 <==> AsNat(c) < 0xdc00
    ensures c <= 0xdfff <==> AsNat(c) <= 0xdfff
  {
  }

  // ---------------------------------------------------------------- four hexadecimal digits

  function Plus(h: bv32, d: bv32): bv32 {
    h + d
  }

  function Nibble(h: bv32): bv32 {
    h << 4
  }

  function NibbleGlued(h: bv32, d: bv32): bv32 {
    ((h & 0xfff) << 4) | (d & 0xf)
  }

  function Twelve(h: bv32): bv32 {
    h & 0xfff
  }

  function Four(d: bv32): bv32 {
    d & 0xf
  }

  lemma NibbleSum(h: bv32, d: bv32)
    ensures (((h & 0xfff) << 4) | (d & 0xf)) as nat == 16 * (h & 0xfff) as nat + (d & 0xf) as nat
  {
  }

  lemma NibbleNumber(h: bv32, d: bv32)
    ensures AsNat(NibbleGlued(h, d)) == 16 * AsNat(Twelve(h)) + AsNat(Four(d))
  {
    NibbleSum(h, d);
  }

  lemma NibbleMasks(h: bv32, d: bv32)
    requires h < 0x1000 && d < 16
    ensures Plus(Nibble(h), d) == NibbleGlued(h, d) && Twelve(h) == h && Four(d) == d
  {
  }

  lemma NibbleZero()
    ensures Nibble(0) == 0
  {
  }

  /** Shifting makes room for a digit. */
  lemma NextDigit(h: bv32, d: bv32)
    requires h < 0x1000 && d < 16
    ensures AsNat(Plus(Nibble(h), d)) == 16 * AsNat(h) + AsNat(d)
  {
    hide AsNat, Plus, Nibble, NibbleGlued, Twelve, Four;
    NibbleMasks(h, d);
    NibbleNumber(h, d);
  }

  lemma FirstDigitFits(h: bv32, d: bv32)
    requires h < 1 && d < 16
    ensures Plus(Nibble(h), d) < 0x10
  {
  }

  lemma SecondDigitFits(h: bv32, d: bv32)
    requires h < 0x10 && d < 16
    ensures Plus(Nibble(h), d) < 0x100
  {
  }

  lemma ThirdDigitFits(h: bv32, d: bv32)
    requires h < 0x100 && d < 16
    ensures Plus(Nibble(h), d) < 0x1000
  {
  }

  /** One more than the largest number of i digits. */
  function HexBound(i: nat): bv32
    requires i < 4
  {
    if i == 0 then 1 else if i == 1 then 0x10 else if i == 2 then 0x100 else 0x1000
  }

  lemma DigitFits(h: bv32, d: bv32, i: nat)
    requires i < 3 && h < HexBound(i) && d < 16
    ensures Plus(Nibble(h), d) < HexBound(i + 1)
  {
    hide Plus, Nibble;
    if i == 0 {
      FirstDigitFits(h, d);
    } else if i == 1 {
      SecondDigitFits(h, d);
    } else {
      ThirdDigitFits(h, d);
    }
  }

  lemma HexBounds(i: nat)
    requires i < 4
    ensures HexBound(0) == 1 && HexBound(i) <= 0x1000
  {
  }

  // ---------------------------------------------------------------- surrogate pairs

  function Ten(c: bv32): bv32 {
    c & 0x3ff
  }

  function AboveTen(c: bv32): bv32 {
    c >> 10
  }

  function TwentyTwo(c: bv32): bv32 {
    c & 0x3f_ffff
  }

  function TenGlued(h: bv32, l: bv32): bv32 {
    ((h & 0x3f_ffff) << 10) | (l & 0x3ff)
  }

  lemma TenNumber(h: bv32, l: bv32)
    ensures AsNat(TenGlued(h, l)) == 0x400 * AsNat(TwentyTwo(h)) + AsNat(Ten(l)) && AsNat(Ten(l)) < 0x400
  {
  }

  lemma TenMasks(c: bv32)
    ensures (((c >> 10) & 0x3f_ffff) << 10) | (c & 0x3ff) == c
    ensures (c >> 10) & 0x3f_ffff == c >> 10 && (c & 0x3ff) & 0x3f_ffff == c & 0x3ff
  {
  }

  lemma TenHalves(c: bv32)
    ensures TenGlued(AboveTen(c), c) == c && TwentyTwo(AboveTen(c)) == AboveTen(c) && TwentyTwo(Ten(c)) == Ten(c)
  {
    TenMasks(c);
  }

  lemma LowTen(c: bv32)
    ensures AsNat(Ten(c)) == AsNat(c) % 0x400
  {
    hide AsNat, Ten, AboveTen, TenGlued, TwentyTwo;
    TenHalves(c);
    TenNumber(AboveTen(c), c);
  }

  function Paired(first: bv32, second: bv32): bv32 {
    0x1_0000 + (((first & 0x3ff) << 10) | (second & 0x3ff))
  }

  function Beyond(x: bv32): bv32 {
    0x1_0000 + (x & 0xf_ffff)
  }

  function Twenty(x: bv32): bv32 {
    x & 0xf_ffff
  }

  lemma BeyondSum(x: bv32)
    ensures (0x1_0000 + (x & 0xf_ffff)) as nat == 0x1_0000 + (x & 0xf_ffff) as nat
  {
  }

  lemma BeyondNumber(x: bv32)
    ensures AsNat(Beyond(x)) == 0x1_0000 + AsNat(Twenty(x))
  {
    BeyondSum(x);
  }

  lemma PairedIs(first: bv32, second: bv32)
    ensures Paired(first, second) == Beyond(TenGlued(Ten(first), second))
  {
  }

  lemma GluedFits(first: bv32, second: bv32)
    ensures Twenty(TenGlued(Ten(first), second)) == TenGlued(Ten(first), second)
  {
  }

  /** The code point of a surrogate pair. */
  lemma PairedNumber(first: bv32, second: bv32)
    ensures AsNat(Paired(first, second)) == 0x1_0000 + AsNat(first) % 0x400 * 0x400 + AsNat(second) % 0x400
  {
    hide AsNat, Ten, TenGlued, TwentyTwo, Beyond, Paired, Twenty;
    LowTen(first);
    LowTen(second);
    TenHalves(first);
    TenNumber(Ten(first), second);
    PairedIs(first, second);
    GluedFits(first, second);
    BeyondNumber(TenGlued(Ten(first), second));
  }

  // ---------------------------------------------------------------- octets

  function Six(c: bv32): bv32 {
    c & 0x3f
  }

  function AboveSix(c: bv32): bv32 {
    c >> 6
  }

  function TwentySix(c: bv32): bv32 {
    c & 0x3ff_ffff
  }

  function SixGlued(h: bv32, l: bv32): bv32 {
    ((h & 0x3ff_ffff) << 6) | (l & 0x3f)
  }

  lemma SixNumber(h: bv32, l: bv32)
    ensures AsNat(SixGlued(h, l)) == 0x40 * AsNat(TwentySix(h)) + AsNat(Six(l)) && AsNat(Six(l)) < 0x40
  {
  }

  lemma SixMasks(c: bv32)
    ensures (((c >> 6) & 0x3ff_ffff) << 6) | (c & 0x3f) == c && (c >> 6) & 0x3ff_ffff == c >> 6
  {
  }

  lemma SixHalves(c: bv32)
    ensures SixGlued(AboveSix(c), c) == c && TwentySix(AboveSix(c)) == AboveSix(c)
  {
    SixMasks(c);
  }

  /** The shift and the mask cut off six bits. */
  lemma CutSix(c: bv32)
    ensures AsNat(AboveSix(c)) == AsNat(c) / 0x40 && AsNat(Six(c)) == AsNat(c) % 0x40
  {
    hide AsNat, Six, AboveSix, SixGlued, TwentySix;
    SixHalves(c);
    SixNumber(AboveSix(c), c);
  }

  /** 10xxxxxx */
  function Continuation(c: bv32): bv32 {
    ((c | 0x80) & 0xbf) & 0xff
  }

  function First(c: bv32, mark: bv32): bv32 {
    (c | mark) & 0xff
  }

  function Ascii(c: bv32): bv32 {
    c & 0x7f
  }

  lemma ContinuationNumber(c: bv32)
    ensures AsNat(Continuation(c)) == 0x80 + AsNat(Six(c))
  {
  }

  lemma FirstNumber(c: bv32)
    ensures AsNat(c) < 0x80 ==> AsNat(Ascii(c)) == AsNat(c)
    ensures AsNat(c) < 0x20 ==> AsNat(First(c, 0xc0)) == 0xc0 + AsNat(c)
    ensures AsNat(c) < 0x10 ==> AsNat(First(c, 0xe0)) == 0xe0 + AsNat(c)
    ensures AsNat(c) < 8 ==> AsNat(First(c, 0xf0)) == 0xf0 + AsNat(c)
  {
    FirstBits(c);
    SmallBits(c);
  }

  lemma SmallBits(c: bv32)
    ensures AsNat(c) < 0x80 ==> c < 0x80
    ensures AsNat(c) < 0x20 ==> c < 0x20
    ensures AsNat(c) < 0x10 ==> c < 0x10
    ensures AsNat(c) < 8 ==> c < 8
  {
  }

  lemma FirstBits(c: bv32)
    ensures c < 0x80 ==> AsNat(Ascii(c)) == AsNat(c)
    ensures c < 0x20 ==> AsNat(First(c, 0xc0)) == 0xc0 + AsNat(c)
    ensures c < 0x10 ==> AsNat(First(c, 0xe0)) == 0xe0 + AsNat(c)
    ensures c < 8 ==> AsNat(First(c, 0xf0)) == 0xf0 + AsNat(c)
  {
  }

  /** What one round of the encoding loop writes and keeps. */
  lemma OctetBits(c: bv32)
    ensures AsNat(Continuation(c)) == 0x80 + AsNat(c) % 0x40 && AsNat(AboveSix(c)) == AsNat(c) / 0x40
  {
    hide AsNat, Continuation, AboveSix, Six;
    ContinuationNumber(c);
    CutSix(c);
  }
}
