/** The example of RFC 1321 appendix A.5 with the message "abc", step by step. */
module Md5Example {
  import opened Streaming
  import opened HashWords
  import opened Md5

  /** The words of the block. */
  function Block(): (b: seq<word>)
    ensures |b| == 16
  {
    seq(16, i => Word(if i == 0 then 0x80636261 else if i == 14 then 0x18 else 0))
  }

  // ---------------------------------------------------------------- the steps

  ghost predicate Reached(h: Regs, t: nat, r: Regs) {
    t <= STEPS && Steps(h, Block(), t) == r
  }

  lemma NoSteps(h: Regs)
    ensures Reached(h, 0, h)
  {
  }

  /** The roles of the registers rotate; one word is new. */
  function Next(r: Regs, n: bv32): Regs {
    Regs(r.d, Word(n), r.b, r.c)
  }

  lemma OneStep(h: Regs, t: nat, r: Regs, x: bv32, s: nat, k: word, n: bv32)
    requires t < STEPS && Reached(h, t, r) && Block()[Index(t)] == Word(x) && Shift(t) == s && T(t) == k
    requires Mix(r.a, r.b, Auxiliary(t, r.b, r.c, r.d), Word(x), s, k) == Word(n)
    ensures Reached(h, t + 1, Next(r, n))
  {
    hide Block, Index, Shift, T, Mix, Auxiliary;
  }

  function At1(): Regs {
    Regs(Word(0xd6d117b4), Word(0x7ad956f2), Word(0x2f6fbd72), Word(0x344a8432))
  }

  function At2(): Regs {
    Regs(Word(0xc73741ef), Word(0x928d99f6), Word(0x207dc67b), Word(0x8bac3051))
  }

  function At3(): Regs {
    Regs(Word(0x854b3712), Word(0x5ed49596), Word(0x3020401c), Word(0x74e2f284))
  }

  function At4(): Regs {
    Regs(Word(0xdda9b9a6), Word(0x72aff2e0), Word(0xe396856b), Word(0xa1051895))
  }

  function At5(): Regs {
    Regs(Word(0x3e9e9126), Word(0xb5b204e4), Word(0xe25e1652), Word(0x4a1d804e))
  }

  function At6(): Regs {
    Regs(Word(0x59a8ffda), Word(0x47092c07), Word(0xabfc7920), Word(0x6d002f1e))
  }

  function At7(): Regs {
    Regs(Word(0xb7f268cf), Word(0x786acb8f), Word(0xfe1623b1), Word(0x09388eff))
  }

  function At8(): Regs {
    Regs(Word(0x790a77fb), Word(0x726342d3), Word(0xa62884aa), Word(0x9f47e4f8))
  }

  function At9(): Regs {
    Regs(Word(0xb3707ebf), Word(0x3b0875c7), Word(0x8d212ff5), Word(0x60127b2e))
  }

  function At10(): Regs {
    Regs(Word(0x21b117b9), Word(0x5a2f5ea5), Word(0x3575227e), Word(0x6e7429d5))
  }

  function At11(): Regs {
    Regs(Word(0x11de1779), Word(0x4c6124f4), Word(0x31c465ca), Word(0xfadcaa38))
  }

  function At12(): Regs {
    Regs(Word(0x7f2e507b), Word(0x7beb9700), Word(0x8fae6399), Word(0x99d9679d))
  }

  function At13(): Regs {
    Regs(Word(0x7b201df8), Word(0x8bf025c4), Word(0xb298cefd), Word(0xf4e8e96e))
  }

  function At14(): Regs {
    Regs(Word(0x06cc5e8a), Word(0x3bfa2c27), Word(0x7d632dd0), Word(0x5b0d97aa))
  }

  function At15(): Regs {
    Regs(Word(0x7f81cc35), Word(0x7327d604), Word(0x4f9dbe3f), Word(0x094454ab))
  }

  function At16(): Regs {
    Regs(Word(0x310ade8f), Word(0xc08226b3), Word(0xe484b9d8), Word(0x624d8cb2))
  }

  lemma Steps0(h: Regs, t: nat)
    requires Reached(h, t, InitialRegs()) && t == 0
    ensures Reached(h, t + 4, At1())
  {
    hide Reached;
    var r0 := InitialRegs();
    OneStep(h, t, r0, 0x80636261, 7, Word(0xd76aa478), 0xd6d117b4);
    var r1 := Next(r0, 0xd6d117b4);
    OneStep(h, t + 1, r1, 0x0, 12, Word(0xe8c7b756), 0x344a8432);
    var r2 := Next(r1, 0x344a8432);
    OneStep(h, t + 2, r2, 0x0, 17, Word(0x242070db), 0x2f6fbd72);
    var r3 := Next(r2, 0x2f6fbd72);
    OneStep(h, t + 3, r3, 0x0, 22, Word(0xc1bdceee), 0x7ad956f2);
  }

  lemma Steps1(h: Regs, t: nat)
    requires Reached(h, t, At1()) && t == 4
    ensures Reached(h, t + 4, At2())
  {
    hide Reached;
    var r0 := At1();
    OneStep(h, t, r0, 0x0, 7, Word(0xf57c0faf), 0xc73741ef);
    var r1 := Next(r0, 0xc73741ef);
    OneStep(h, t + 1, r1, 0x0, 12, Word(0x4787c62a), 0x8bac3051);
    var r2 := Next(r1, 0x8bac3051);
    OneStep(h, t + 2, r2, 0x0, 17, Word(0xa8304613), 0x207dc67b);
    var r3 := Next(r2, 0x207dc67b);
    OneStep(h, t + 3, r3, 0x0, 22, Word(0xfd469501), 0x928d99f6);
  }

  lemma Steps2(h: Regs, t: nat)
    requires Reached(h, t, At2()) && t == 8
    ensures Reached(h, t + 4, At3())
  {
    hide Reached;
    var r0 := At2();
    OneStep(h, t, r0, 0x0, 7, Word(0x698098d8), 0x854b3712);
    var r1 := Next(r0, 0x854b3712);
    OneStep(h, t + 1, r1, 0x0, 12, Word(0x8b44f7af), 0x74e2f284);
    var r2 := Next(r1, 0x74e2f284);
    OneStep(h, t + 2, r2, 0x0, 17, Word(0xffff5bb1), 0x3020401c);
    var r3 := Next(r2, 0x3020401c);
    OneStep(h, t + 3, r3, 0x0, 22, Word(0x895cd7be), 0x5ed49596);
  }

  lemma Steps3(h: Regs, t: nat)
    requires Reached(h, t, At3()) && t == 12
    ensures Reached(h, t + 4, At4())
  {
    hide Reached;
    var r0 := At3();
    OneStep(h, t, r0, 0x0, 7, Word(0x6b901122), 0xdda9b9a6);
    var r1 := Next(r0, 0xdda9b9a6);
    OneStep(h, t + 1, r1, 0x0, 12, Word(0xfd987193), 0xa1051895);
    var r2 := Next(r1, 0xa1051895);
    OneStep(h, t + 2, r2, 0x18, 17, Word(0xa679438e), 0xe396856b);
    var r3 := Next(r2, 0xe396856b);
    OneStep(h, t + 3, r3, 0x0, 22, Word(0x49b40821), 0x72aff2e0);
  }

  lemma Steps4(h: Regs, t: nat)
    requires Reached(h, t, At4()) && t == 16
    ensures Reached(h, t + 4, At5())
  {
    hide Reached;
    var r0 := At4();
    OneStep(h, t, r0, 0x0, 5, Word(0xf61e2562), 0x3e9e9126);
    var r1 := Next(r0, 0x3e9e9126);
    OneStep(h, t + 1, r1, 0x0, 9, Word(0xc040b340), 0x4a1d804e);
    var r2 := Next(r1, 0x4a1d804e);
    OneStep(h, t + 2, r2, 0x0, 14, Word(0x265e5a51), 0xe25e1652);
    var r3 := Next(r2, 0xe25e1652);
    OneStep(h, t + 3, r3, 0x80636261, 20, Word(0xe9b6c7aa), 0xb5b204e4);
  }

  lemma Steps5(h: Regs, t: nat)
    requires Reached(h, t, At5()) && t == 20
    ensures Reached(h, t + 4, At6())
  {
    hide Reached;
    var r0 := At5();
    OneStep(h, t, r0, 0x0, 5, Word(0xd62f105d), 0x59a8ffda);
    var r1 := Next(r0, 0x59a8ffda);
    OneStep(h, t + 1, r1, 0x0, 9, Word(0x02441453), 0x6d002f1e);
    var r2 := Next(r1, 0x6d002f1e);
    OneStep(h, t + 2, r2, 0x0, 14, Word(0xd8a1e681), 0xabfc7920);
    var r3 := Next(r2, 0xabfc7920);
    OneStep(h, t + 3, r3, 0x0, 20, Word(0xe7d3fbc8), 0x47092c07);
  }

  lemma Steps6(h: Regs, t: nat)
    requires Reached(h, t, At6()) && t == 24
    ensures Reached(h, t + 4, At7())
  {
    hide Reached;
    var r0 := At6();
    OneStep(h, t, r0, 0x0, 5, Word(0x21e1cde6), 0xb7f268cf);
    var r1 := Next(r0, 0xb7f268cf);
    OneStep(h, t + 1, r1, 0x18, 9, Word(0xc33707d6), 0x09388eff);
    var r2 := Next(r1, 0x09388eff);
    OneStep(h, t + 2, r2, 0x0, 14, Word(0xf4d50d87), 0xfe1623b1);
    var r3 := Next(r2, 0xfe1623b1);
    OneStep(h, t + 3, r3, 0x0, 20, Word(0x455a14ed), 0x786acb8f);
  }

  lemma Steps7(h: Regs, t: nat)
    requires Reached(h, t, At7()) && t == 28
    ensures Reached(h, t + 4, At8())
  {
    hide Reached;
    var r0 := At7();
    OneStep(h, t, r0, 0x0, 5, Word(0xa9e3e905), 0x790a77fb);
    var r1 := Next(r0, 0x790a77fb);
    OneStep(h, t + 1, r1, 0x0, 9, Word(0xfcefa3f8), 0x9f47e4f8);
    var r2 := Next(r1, 0x9f47e4f8);
    OneStep(h, t + 2, r2, 0x0, 14, Word(0x676f02d9), 0xa62884aa);
    var r3 := Next(r2, 0xa62884aa);
    OneStep(h, t + 3, r3, 0x0, 20, Word(0x8d2a4c8a), 0x726342d3);
  }

  lemma Steps8(h: Regs, t: nat)
    requires Reached(h, t, At8()) && t == 32
    ensures Reached(h, t + 4, At9())
  {
    hide Reached;
    var r0 := At8();
    OneStep(h, t, r0, 0x0, 4, Word(0xfffa3942), 0xb3707ebf);
    var r1 := Next(r0, 0xb3707ebf);
    OneStep(h, t + 1, r1, 0x0, 11, Word(0x8771f681), 0x60127b2e);
    var r2 := Next(r1, 0x60127b2e);
    OneStep(h, t + 2, r2, 0x0, 16, Word(0x6d9d6122), 0x8d212ff5);
    var r3 := Next(r2, 0x8d212ff5);
    OneStep(h, t + 3, r3, 0x18, 23, Word(0xfde5380c), 0x3b0875c7);
  }

  lemma Steps9(h: Regs, t: nat)
    requires Reached(h, t, At9()) && t == 36
    ensures Reached(h, t + 4, At10())
  {
    hide Reached;
    var r0 := At9();
    OneStep(h, t, r0, 0x0, 4, Word(0xa4beea44), 0x21b117b9);
    var r1 := Next(r0, 0x21b117b9);
    OneStep(h, t + 1, r1, 0x0, 11, Word(0x4bdecfa9), 0x6e7429d5);
    var r2 := Next(r1, 0x6e7429d5);
    OneStep(h, t + 2, r2, 0x0, 16, Word(0xf6bb4b60), 0x3575227e);
    var r3 := Next(r2, 0x3575227e);
    OneStep(h, t + 3, r3, 0x0, 23, Word(0xbebfbc70), 0x5a2f5ea5);
  }

  lemma Steps10(h: Regs, t: nat)
    requires Reached(h, t, At10()) && t == 40
    ensures Reached(h, t + 4, At11())
  {
    hide Reached;
    var r0 := At10();
    OneStep(h, t, r0, 0x0, 4, Word(0x289b7ec6), 0x11de1779);
    var r1 := Next(r0, 0x11de1779);
    OneStep(h, t + 1, r1, 0x80636261, 11, Word(0xeaa127fa), 0xfadcaa38);
    var r2 := Next(r1, 0xfadcaa38);
    OneStep(h, t + 2, r2, 0x0, 16, Word(0xd4ef3085), 0x31c465ca);
    var r3 := Next(r2, 0x31c465ca);
    OneStep(h, t + 3, r3, 0x0, 23, Word(0x04881d05), 0x4c6124f4);
  }

  lemma Steps11(h: Regs, t: nat)
    requires Reached(h, t, At11()) && t == 44
    ensures Reached(h, t + 4, At12())
  {
    hide Reached;
    var r0 := At11();
    OneStep(h, t, r0, 0x0, 4, Word(0xd9d4d039), 0x7f2e507b);
    var r1 := Next(r0, 0x7f2e507b);
    OneStep(h, t + 1, r1, 0x0, 11, Word(0xe6db99e5), 0x99d9679d);
    var r2 := Next(r1, 0x99d9679d);
    OneStep(h, t + 2, r2, 0x0, 16, Word(0x1fa27cf8), 0x8fae6399);
    var r3 := Next(r2, 0x8fae6399);
    OneStep(h, t + 3, r3, 0x0, 23, Word(0xc4ac5665), 0x7beb9700);
  }

  lemma Steps12(h: Regs, t: nat)
    requires Reached(h, t, At12()) && t == 48
    ensures Reached(h, t + 4, At13())
  {
    hide Reached;
    var r0 := At12();
    OneStep(h, t, r0, 0x80636261, 6, Word(0xf4292244), 0x7b201df8);
    var r1 := Next(r0, 0x7b201df8);
    OneStep(h, t + 1, r1, 0x0, 10, Word(0x432aff97), 0xf4e8e96e);
    var r2 := Next(r1, 0xf4e8e96e);
    OneStep(h, t + 2, r2, 0x18, 15, Word(0xab9423a7), 0xb298cefd);
    var r3 := Next(r2, 0xb298cefd);
    OneStep(h, t + 3, r3, 0x0, 21, Word(0xfc93a039), 0x8bf025c4);
  }

  lemma Steps13(h: Regs, t: nat)
    requires Reached(h, t, At13()) && t == 52
    ensures Reached(h, t + 4, At14())
  {
    hide Reached;
    var r0 := At13();
    OneStep(h, t, r0, 0x0, 6, Word(0x655b59c3), 0x06cc5e8a);
    var r1 := Next(r0, 0x06cc5e8a);
    OneStep(h, t + 1, r1, 0x0, 10, Word(0x8f0ccc92), 0x5b0d97aa);
    var r2 := Next(r1, 0x5b0d97aa);
    OneStep(h, t + 2, r2, 0x0, 15, Word(0xffeff47d), 0x7d632dd0);
    var r3 := Next(r2, 0x7d632dd0);
    OneStep(h, t + 3, r3, 0x0, 21, Word(0x85845dd1), 0x3bfa2c27);
  }

  lemma Steps14(h: Regs, t: nat)
    requires Reached(h, t, At14()) && t == 56
    ensures Reached(h, t + 4, At15())
  {
    hide Reached;
    var r0 := At14();
    OneStep(h, t, r0, 0x0, 6, Word(0x6fa87e4f), 0x7f81cc35);
    var r1 := Next(r0, 0x7f81cc35);
    OneStep(h, t + 1, r1, 0x0, 10, Word(0xfe2ce6e0), 0x094454ab);
    var r2 := Next(r1, 0x094454ab);
    OneStep(h, t + 2, r2, 0x0, 15, Word(0xa3014314), 0x4f9dbe3f);
    var r3 := Next(r2, 0x4f9dbe3f);
    OneStep(h, t + 3, r3, 0x0, 21, Word(0x4e0811a1), 0x7327d604);
  }

  lemma Steps15(h: Regs, t: nat)
    requires Reached(h, t, At15()) && t == 60
    ensures Reached(h, t + 4, At16())
  {
    hide Reached;
    var r0 := At15();
    OneStep(h, t, r0, 0x0, 6, Word(0xf7537e82), 0x310ade8f);
    var r1 := Next(r0, 0x310ade8f);
    OneStep(h, t + 1, r1, 0x0, 10, Word(0xbd3af235), 0x624d8cb2);
    var r2 := Next(r1, 0x624d8cb2);
    OneStep(h, t + 2, r2, 0x0, 15, Word(0x2ad7d2bb), 0xe484b9d8);
    var r3 := Next(r2, 0xe484b9d8);
    OneStep(h, t + 3, r3, 0x0, 21, Word(0xeb86d391), 0xc08226b3);
  }

  lemma AllSteps(h: Regs, t: nat)
    requires h == InitialRegs() && t == STEPS
    ensures Reached(h, t, At16())
  {
    hide Reached, InitialRegs, At1, At2, At3, At4, At5, At6, At7, At8;
    hide At9, At10, At11, At12, At13, At14, At15, At16;
    NoSteps(h);
    Steps0(h, 0);
    Steps1(h, 4);
    Steps2(h, 8);
    Steps3(h, 12);
    Steps4(h, 16);
    Steps5(h, 20);
    Steps6(h, 24);
    Steps7(h, 28);
    Steps8(h, 32);
    Steps9(h, 36);
    Steps10(h, 40);
    Steps11(h, 44);
    Steps12(h, 48);
    Steps13(h, 52);
    Steps14(h, 56);
    Steps15(h, 60);
  }

  // ---------------------------------------------------------------- the message

  /** The bytes of "abc". */
  const ABC: seq<byte> := [0x61, 0x62, 0x63]

  lemma OneByteField(n: nat, k: nat)
    requires n < 0x100 && k >= 1
    ensures LittleEndian(n, k) == [n as byte] + Zeros(k - 1)
  {
    hide LittleEndian, Zeros;
    assert n / 0x100 == 0 && n % 0x100 == n;
    LastByte(n, k);
    NoBytes(k - 1);
  }

  lemma LastByte(n: nat, k: nat)
    requires k >= 1
    ensures LittleEndian(n, k) == [(n % 0x100) as byte] + LittleEndian(n / 0x100, k - 1)
  {
  }

  lemma {:induction false} NoBytes(k: nat)
    ensures LittleEndian(0, k) == Zeros(k)
  {
    if k > 0 {
      NoBytes(k - 1);
    }
  }

  lemma PaddedBytes()
    ensures var s := Padded(ABC);
      && |s| == BLOCK && s[0] == 0x61 && s[1] == 0x62 && s[2] == 0x63 && s[3] == 0x80 && s[56] == 0x18
      && forall i :: 4 <= i < 64 && i != 56 ==> s[i] == 0
  {
    hide LittleEndian, Zeros;
    OneByteField(24, 8);
  }

  lemma SomeWords()
    ensures BytesWord([0, 0, 0, 0]) == Word(0) && BytesWord([0x18, 0, 0, 0]) == Word(0x18)
    ensures BytesWord([0x61, 0x62, 0x63, 0x80]) == Word(0x80636261)
  {
  }

  lemma BlockIs()
    ensures |Padded(ABC)| == BLOCK && BlockWords(Padded(ABC)) == Block()
  {
    hide Padded, BytesWord;
    PaddedBytes();
    SomeWords();
    var s := Padded(ABC);
    assert s[0..4] == [0x61, 0x62, 0x63, 0x80];
    forall i | 1 <= i < 16 && i != 14 ensures s[4 * i..4 * i + 4] == [0, 0, 0, 0] {
    }
    assert s[56..60] == [0x18, 0, 0, 0];
  }

  lemma OneBlock(h: Regs, s: seq<byte>)
    requires |s| == BLOCK
    ensures Blocks(Compress, h, s, BLOCK) == Add(h, Steps(h, BlockWords(s), STEPS))
  {
    hide Steps, BlockWords;
    assert s[..BLOCK] == s && s[BLOCK..] == [];
  }

  lemma DigestBytes()
    ensures WordBytes(Word(0x98500190)) == [0x90, 0x01, 0x50, 0x98]
    ensures WordBytes(Word(0xb04fd23c)) == [0x3c, 0xd2, 0x4f, 0xb0]
    ensures WordBytes(Word(0x7d3f96d6)) == [0xd6, 0x96, 0x3f, 0x7d]
    ensures WordBytes(Word(0x727fe128)) == [0x28, 0xe1, 0x7f, 0x72]
  {
  }

  lemma Final()
    ensures Add(InitialRegs(), At16()) ==
      Regs(Word(0x98500190), Word(0xb04fd23c), Word(0x7d3f96d6), Word(0x727fe128))
  {
  }

  /** The digest of "abc". */
  lemma Abc()
    ensures Digest(ABC) ==
        [0x90, 0x01, 0x50, 0x98, 0x3c, 0xd2, 0x4f, 0xb0, 0xd6, 0x96, 0x3f, 0x7d, 0x28, 0xe1, 0x7f, 0x72]
  {
    hide Steps, BlockWords, Padded, Block, InitialRegs, At16, WordBytes;
    var h := InitialRegs();
    BlockIs();
    AllSteps(h, STEPS);
    OneBlock(h, Padded(ABC));
    Final();
    DigestBytes();
  }
}
