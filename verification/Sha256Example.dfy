/** The example of FIPS 180-4 with one block, the message "abc", round by round. */
module Sha256Example {
  import opened Streaming
  import opened HashWords
  import opened Sha256

  // ---------------------------------------------------------------- the message schedule

  function W0(): (w: seq<word>)
    ensures |w| == 8
  {
    [Word(0x61626380), Word(0x00000000), Word(0x00000000), Word(0x00000000),
     Word(0x00000000), Word(0x00000000), Word(0x00000000), Word(0x00000000)]
  }

  function W1(): (w: seq<word>)
    ensures |w| == 8
  {
    [Word(0x00000000), Word(0x00000000), Word(0x00000000), Word(0x00000000),
     Word(0x00000000), Word(0x00000000), Word(0x00000000), Word(0x00000018)]
  }

  function W2(): (w: seq<word>)
    ensures |w| == 8
  {
    [Word(0x61626380), Word(0x000f0000), Word(0x7da86405), Word(0x600003c6),
     Word(0x3e9d7b78), Word(0x0183fc00), Word(0x12dcbfdb), Word(0xe2e2c38e)]
  }

  function W3(): (w: seq<word>)
    ensures |w| == 8
  {
    [Word(0xc8215c1a), Word(0xb73679a2), Word(0xe5bc3909), Word(0x32663c5b),
     Word(0x9d209d67), Word(0xec8726cb), Word(0x702138a4), Word(0xd3b7973b)]
  }

  function W4(): (w: seq<word>)
    ensures |w| == 8
  {
    [Word(0x93f5997f), Word(0x3b68ba73), Word(0xaff4ffc1), Word(0xf10a5c62),
     Word(0x0a8b3996), Word(0x72af830a), Word(0x9409e33e), Word(0x24641522)]
  }

  function W5(): (w: seq<word>)
    ensures |w| == 8
  {
    [Word(0x9f47bf94), Word(0xf0a64f5a), Word(0x3e246a79), Word(0x27333ba3),
     Word(0x0c4763f2), Word(0x840abf27), Word(0x7a290d5d), Word(0x065c43da)]
  }

  function W6(): (w: seq<word>)
    ensures |w| == 8
  {
    [Word(0xfb3e89cb), Word(0xcc7617db), Word(0xb9e66c34), Word(0xa9993667),
     Word(0x84badedd), Word(0xc21462bc), Word(0x1487472c), Word(0xb20f7a99)]
  }

  function W7(): (w: seq<word>)
    ensures |w| == 8
  {
    [Word(0xef57b9cd), Word(0xebe6b238), Word(0x9fe3095e), Word(0x78bc8d4b),
     Word(0xa43fcf15), Word(0x668b2ff8), Word(0xeeaba2cc), Word(0x12b1edeb)]
  }

  /** The words of the block. */
  function Block(): (b: seq<word>)
    ensures |b| == 16
  {
    W0() + W1()
  }

  /** The eight words of the schedule from t on. */
  ghost predicate Follow(b: seq<word>, t: nat, w: seq<word>) {
    && |b| == 16 && |w| == 8
    && Schedule(b, t) == w[0] && Schedule(b, t + 1) == w[1] && Schedule(b, t + 2) == w[2]
    && Schedule(b, t + 3) == w[3] && Schedule(b, t + 4) == w[4] && Schedule(b, t + 5) == w[5]
    && Schedule(b, t + 6) == w[6] && Schedule(b, t + 7) == w[7]
  }

  lemma FirstWords()
    ensures Follow(Block(), 0, W0()) && Follow(Block(), 8, W1())
  {
    hide W0, W1;
  }

  lemma WordIs(b: seq<word>, t: nat)
    requires |b| == 16
    ensures Schedule(b, t + 16)
         == Expand(Schedule(b, t), Schedule(b, t + 1), Schedule(b, t + 9), Schedule(b, t + 14))
  {
  }

  lemma EightMore(b: seq<word>, t: nat, u: seq<word>, v: seq<word>, w: seq<word>)
    requires Follow(b, t, u) && Follow(b, t + 8, v) && |w| == 8
    requires w[0] == Expand(u[0], u[1], v[1], v[6]) && w[1] == Expand(u[1], u[2], v[2], v[7])
    requires w[2] == Expand(u[2], u[3], v[3], w[0]) && w[3] == Expand(u[3], u[4], v[4], w[1])
    requires w[4] == Expand(u[4], u[5], v[5], w[2]) && w[5] == Expand(u[5], u[6], v[6], w[3])
    requires w[6] == Expand(u[6], u[7], v[7], w[4]) && w[7] == Expand(u[7], v[0], w[0], w[5])
    ensures Follow(b, t + 16, w)
  {
    hide Schedule, Expand;
    WordIs(b, t);
    WordIs(b, t + 1);
    WordIs(b, t + 2);
    WordIs(b, t + 3);
    WordIs(b, t + 4);
    WordIs(b, t + 5);
    WordIs(b, t + 6);
    WordIs(b, t + 7);
  }


  lemma Words2(b: seq<word>, t: nat)
    requires Follow(b, t, W0()) && Follow(b, t + 8, W1())
    ensures Follow(b, t + 16, W2())
  {
    hide Follow;
    EightMore(b, t, W0(), W1(), W2());
  }

  lemma Words3(b: seq<word>, t: nat)
    requires Follow(b, t, W1()) && Follow(b, t + 8, W2())
    ensures Follow(b, t + 16, W3())
  {
    hide Follow;
    EightMore(b, t, W1(), W2(), W3());
  }

  lemma Words4(b: seq<word>, t: nat)
    requires Follow(b, t, W2()) && Follow(b, t + 8, W3())
    ensures Follow(b, t + 16, W4())
  {
    hide Follow;
    EightMore(b, t, W2(), W3(), W4());
  }

  lemma Words5(b: seq<word>, t: nat)
    requires Follow(b, t, W3()) && Follow(b, t + 8, W4())
    ensures Follow(b, t + 16, W5())
  {
    hide Follow;
    EightMore(b, t, W3(), W4(), W5());
  }

  lemma Words6(b: seq<word>, t: nat)
    requires Follow(b, t, W4()) && Follow(b, t + 8, W5())
    ensures Follow(b, t + 16, W6())
  {
    hide Follow;
    EightMore(b, t, W4(), W5(), W6());
  }

  lemma Words7(b: seq<word>, t: nat)
    requires Follow(b, t, W5()) && Follow(b, t + 8, W6())
    ensures Follow(b, t + 16, W7())
  {
    hide Follow;
    EightMore(b, t, W5(), W6(), W7());
  }

  // ---------------------------------------------------------------- the rounds

  /** The registers move on by one; the first and the fifth are new. */
  function Next(r: Regs, a: bv32, e: bv32): Regs {
    Regs(Word(a), r.a, r.b, r.c, Word(e), r.e, r.f, r.g)
  }

  ghost predicate Reached(h: Regs, t: nat, r: Regs) {
    t <= ROUNDS && Rounds(h, Block(), t) == r
  }

  lemma NoRounds(h: Regs)
    ensures Reached(h, 0, h)
  {
  }

  /** Round 8 * i + j, with its constant and its word. */
  lemma OneRound(h: Regs, i: nat, j: nat, k: seq<bv32>, w: seq<word>, r: Regs, a: bv32, e: bv32)
    requires j < 8 && 8 * i + j < ROUNDS && Reached(h, 8 * i + j, r) && KRow(i) == k
    requires Follow(Block(), 8 * i, w) && |k| == 8 && Round(r, Word(k[j]), w[j]) == Next(r, a, e)
    ensures Reached(h, 8 * i + j + 1, Next(r, a, e))
  {
    hide KRow, Round, Schedule;
    var t := 8 * i + j;
    assert t / 8 == i && t % 8 == j;
  }

  lemma Constants()
    ensures KRow(0) == K0()
    ensures KRow(1) == K1()
    ensures KRow(2) == K2()
    ensures KRow(3) == K3()
    ensures KRow(4) == K4()
    ensures KRow(5) == K5()
    ensures KRow(6) == K6()
    ensures KRow(7) == K7()
  {
    hide K0, K1, K2, K3, K4, K5, K6, K7;
  }

  // ---------------------------------------------------------------- the registers after every fourth round

  function At1(): Regs {
    Regs(Word(0xd550f666), Word(0xc8c347a7), Word(0x5a6ad9ad), Word(0x5d6aebcd),
         Word(0x24e00850), Word(0xf92939eb), Word(0x78ce7989), Word(0xfa2a4622))
  }

  function At2(): Regs {
    Regs(Word(0x85a07b5f), Word(0xe5030380), Word(0x2b4209f5), Word(0x04409a6a),
         Word(0x0c657a79), Word(0x9b27a401), Word(0x714260ad), Word(0x43ada245))
  }

  function At3(): Regs {
    Regs(Word(0xf71fc5a9), Word(0x4798a3f4), Word(0x8c87346b), Word(0x8e04ecb9),
         Word(0x816fd6e9), Word(0x436b23e8), Word(0x1cc92596), Word(0x32ca2d8c))
  }

  function At4(): Regs {
    Regs(Word(0xb0fa238e), Word(0xc0645fde), Word(0xd932eb16), Word(0x87912990),
         Word(0x07590dcd), Word(0x0b92f20c), Word(0x745a48de), Word(0x1e578218))
  }

  function At5(): Regs {
    Regs(Word(0xe1f20c33), Word(0xfe777bbf), Word(0xc2fbd9d1), Word(0x21da9a9b),
         Word(0xb0638179), Word(0xcc899961), Word(0x846ee454), Word(0x8034229c))
  }

  function At6(): Regs {
    Regs(Word(0xc5d53d8d), Word(0xa7a3623f), Word(0xc2606d6d), Word(0x9dc68b63),
         Word(0xaa47c347), Word(0x49f5114a), Word(0xe1257970), Word(0x8ada8930))
  }

  function At7(): Regs {
    Regs(Word(0x77d37528), Word(0xb62ec4bc), Word(0xcde8037d), Word(0x1c2c2838),
         Word(0xedffbff8), Word(0xc74c6516), Word(0x14383d8e), Word(0x2823ef91))
  }

  function At8(): Regs {
    Regs(Word(0x73b33bf5), Word(0xea992a22), Word(0xa0060b30), Word(0x363482c9),
         Word(0xba591112), Word(0x0109ab3a), Word(0xade79437), Word(0x6112a3b7))
  }

  function At9(): Regs {
    Regs(Word(0x65a0cfe4), Word(0xa9a7738c), Word(0xfe604df5), Word(0x98e12507),
         Word(0xf4b002d6), Word(0x085f3833), Word(0x59249dd3), Word(0x9cd9f5f6))
  }

  function At10(): Regs {
    Regs(Word(0x79ea687a), Word(0x6dc57a8a), Word(0x34df1604), Word(0x41a65cb1),
         Word(0x1efbc0a0), Word(0xf0781bc8), Word(0xa507a53d), Word(0x0772a26b))
  }

  function At11(): Regs {
    Regs(Word(0x9d4baf93), Word(0x17aa0dfe), Word(0xdf46652f), Word(0xd6670766),
         Word(0xfda24c2e), Word(0xdecd4715), Word(0x838b2711), Word(0x26352d63))
  }

  function At12(): Regs {
    Regs(Word(0x4172328d), Word(0xa14c14b0), Word(0x72ab4b91), Word(0x26628815),
         Word(0xfecf0bc6), Word(0xd57b94a9), Word(0xb7755da1), Word(0xa80f11f0))
  }

  function At13(): Regs {
    Regs(Word(0x886e7a22), Word(0x7a0508a1), Word(0xf11bfaa8), Word(0x05757ceb),
         Word(0x49231c1e), Word(0x52f1ccf7), Word(0x6e5c390c), Word(0xbd714038))
  }

  function At14(): Regs {
    Regs(Word(0x38cc9913), Word(0x3ec45cdb), Word(0xf5702fdb), Word(0x101fd28f),
         Word(0x54cb266b), Word(0xe50e1b4f), Word(0x9f4787c3), Word(0x529e7d00))
  }

  function At15(): Regs {
    Regs(Word(0xb6ae8fff), Word(0xffb70472), Word(0xc062d46f), Word(0xfcd1887b),
         Word(0xb21bad3d), Word(0x6d83bfc6), Word(0x7e44008e), Word(0x9b5e906c))
  }

  function At16(): Regs {
    Regs(Word(0x506e3058), Word(0xd39a2165), Word(0x04d24d6c), Word(0xb85e2ce9),
         Word(0x5ef50f24), Word(0xfb121210), Word(0x948d25b6), Word(0x961f4894))
  }

  lemma Rounds0(h: Regs, i: nat)
    requires Reached(h, 8 * i, InitialHash()) && i < 8
    requires Follow(Block(), 8 * i, W0()) && KRow(i) == K0()
    ensures Reached(h, 8 * i + 4, At1())
  {
    hide Reached, Follow, KRow, Block;
    var k, w, r0 := K0(), W0(), InitialHash();
    var r1 := Next(r0, 0x5d6aebcd, 0xfa2a4622);
    OneRound(h, i, 0, k, w, r0, 0x5d6aebcd, 0xfa2a4622);
    var r2 := Next(r1, 0x5a6ad9ad, 0x78ce7989);
    OneRound(h, i, 1, k, w, r1, 0x5a6ad9ad, 0x78ce7989);
    var r3 := Next(r2, 0xc8c347a7, 0xf92939eb);
    OneRound(h, i, 2, k, w, r2, 0xc8c347a7, 0xf92939eb);
    var r4 := Next(r3, 0xd550f666, 0x24e00850);
    OneRound(h, i, 3, k, w, r3, 0xd550f666, 0x24e00850);
  }

  lemma Rounds1(h: Regs, i: nat)
    requires Reached(h, 8 * i + 4, At1()) && i < 8
    requires Follow(Block(), 8 * i, W0()) && KRow(i) == K0()
    ensures Reached(h, 8 * i + 8, At2())
  {
    hide Reached, Follow, KRow, Block;
    var k, w, r0 := K0(), W0(), At1();
    var r1 := Next(r0, 0x04409a6a, 0x43ada245);
    OneRound(h, i, 4, k, w, r0, 0x04409a6a, 0x43ada245);
    var r2 := Next(r1, 0x2b4209f5, 0x714260ad);
    OneRound(h, i, 5, k, w, r1, 0x2b4209f5, 0x714260ad);
    var r3 := Next(r2, 0xe5030380, 0x9b27a401);
    OneRound(h, i, 6, k, w, r2, 0xe5030380, 0x9b27a401);
    var r4 := Next(r3, 0x85a07b5f, 0x0c657a79);
    OneRound(h, i, 7, k, w, r3, 0x85a07b5f, 0x0c657a79);
  }

  lemma Rounds2(h: Regs, i: nat)
    requires Reached(h, 8 * i, At2()) && i < 8
    requires Follow(Block(), 8 * i, W1()) && KRow(i) == K1()
    ensures Reached(h, 8 * i + 4, At3())
  {
    hide Reached, Follow, KRow, Block;
    var k, w, r0 := K1(), W1(), At2();
    var r1 := Next(r0, 0x8e04ecb9, 0x32ca2d8c);
    OneRound(h, i, 0, k, w, r0, 0x8e04ecb9, 0x32ca2d8c);
    var r2 := Next(r1, 0x8c87346b, 0x1cc92596);
    OneRound(h, i, 1, k, w, r1, 0x8c87346b, 0x1cc92596);
    var r3 := Next(r2, 0x4798a3f4, 0x436b23e8);
    OneRound(h, i, 2, k, w, r2, 0x4798a3f4, 0x436b23e8);
    var r4 := Next(r3, 0xf71fc5a9, 0x816fd6e9);
    OneRound(h, i, 3, k, w, r3, 0xf71fc5a9, 0x816fd6e9);
  }

  lemma Rounds3(h: Regs, i: nat)
    requires Reached(h, 8 * i + 4, At3()) && i < 8
    requires Follow(Block(), 8 * i, W1()) && KRow(i) == K1()
    ensures Reached(h, 8 * i + 8, At4())
  {
    hide Reached, Follow, KRow, Block;
    var k, w, r0 := K1(), W1(), At3();
    var r1 := Next(r0, 0x87912990, 0x1e578218);
    OneRound(h, i, 4, k, w, r0, 0x87912990, 0x1e578218);
    var r2 := Next(r1, 0xd932eb16, 0x745a48de);
    OneRound(h, i, 5, k, w, r1, 0xd932eb16, 0x745a48de);
    var r3 := Next(r2, 0xc0645fde, 0x0b92f20c);
    OneRound(h, i, 6, k, w, r2, 0xc0645fde, 0x0b92f20c);
    var r4 := Next(r3, 0xb0fa238e, 0x07590dcd);
    OneRound(h, i, 7, k, w, r3, 0xb0fa238e, 0x07590dcd);
  }

  lemma Rounds4(h: Regs, i: nat)
    requires Reached(h, 8 * i, At4()) && i < 8
    requires Follow(Block(), 8 * i, W2()) && KRow(i) == K2()
    ensures Reached(h, 8 * i + 4, At5())
  {
    hide Reached, Follow, KRow, Block;
    var k, w, r0 := K2(), W2(), At4();
    var r1 := Next(r0, 0x21da9a9b, 0x8034229c);
    OneRound(h, i, 0, k, w, r0, 0x21da9a9b, 0x8034229c);
    var r2 := Next(r1, 0xc2fbd9d1, 0x846ee454);
    OneRound(h, i, 1, k, w, r1, 0xc2fbd9d1, 0x846ee454);
    var r3 := Next(r2, 0xfe777bbf, 0xcc899961);
    OneRound(h, i, 2, k, w, r2, 0xfe777bbf, 0xcc899961);
    var r4 := Next(r3, 0xe1f20c33, 0xb0638179);
    OneRound(h, i, 3, k, w, r3, 0xe1f20c33, 0xb0638179);
  }

  lemma Rounds5(h: Regs, i: nat)
    requires Reached(h, 8 * i + 4, At5()) && i < 8
    requires Follow(Block(), 8 * i, W2()) && KRow(i) == K2()
    ensures Reached(h, 8 * i + 8, At6())
  {
    hide Reached, Follow, KRow, Block;
    var k, w, r0 := K2(), W2(), At5();
    var r1 := Next(r0, 0x9dc68b63, 0x8ada8930);
    OneRound(h, i, 4, k, w, r0, 0x9dc68b63, 0x8ada8930);
    var r2 := Next(r1, 0xc2606d6d, 0xe1257970);
    OneRound(h, i, 5, k, w, r1, 0xc2606d6d, 0xe1257970);
    var r3 := Next(r2, 0xa7a3623f, 0x49f5114a);
    OneRound(h, i, 6, k, w, r2, 0xa7a3623f, 0x49f5114a);
    var r4 := Next(r3, 0xc5d53d8d, 0xaa47c347);
    OneRound(h, i, 7, k, w, r3, 0xc5d53d8d, 0xaa47c347);
  }

  lemma Rounds6(h: Regs, i: nat)
    requires Reached(h, 8 * i, At6()) && i < 8
    requires Follow(Block(), 8 * i, W3()) && KRow(i) == K3()
    ensures Reached(h, 8 * i + 4, At7())
  {
    hide Reached, Follow, KRow, Block;
    var k, w, r0 := K3(), W3(), At6();
    var r1 := Next(r0, 0x1c2c2838, 0x2823ef91);
    OneRound(h, i, 0, k, w, r0, 0x1c2c2838, 0x2823ef91);
    var r2 := Next(r1, 0xcde8037d, 0x14383d8e);
    OneRound(h, i, 1, k, w, r1, 0xcde8037d, 0x14383d8e);
    var r3 := Next(r2, 0xb62ec4bc, 0xc74c6516);
    OneRound(h, i, 2, k, w, r2, 0xb62ec4bc, 0xc74c6516);
    var r4 := Next(r3, 0x77d37528, 0xedffbff8);
    OneRound(h, i, 3, k, w, r3, 0x77d37528, 0xedffbff8);
  }

  lemma Rounds7(h: Regs, i: nat)
    requires Reached(h, 8 * i + 4, At7()) && i < 8
    requires Follow(Block(), 8 * i, W3()) && KRow(i) == K3()
    ensures Reached(h, 8 * i + 8, At8())
  {
    hide Reached, Follow, KRow, Block;
    var k, w, r0 := K3(), W3(), At7();
    var r1 := Next(r0, 0x363482c9, 0x6112a3b7);
    OneRound(h, i, 4, k, w, r0, 0x363482c9, 0x6112a3b7);
    var r2 := Next(r1, 0xa0060b30, 0xade79437);
    OneRound(h, i, 5, k, w, r1, 0xa0060b30, 0xade79437);
    var r3 := Next(r2, 0xea992a22, 0x0109ab3a);
    OneRound(h, i, 6, k, w, r2, 0xea992a22, 0x0109ab3a);
    var r4 := Next(r3, 0x73b33bf5, 0xba591112);
    OneRound(h, i, 7, k, w, r3, 0x73b33bf5, 0xba591112);
  }

  lemma Rounds8(h: Regs, i: nat)
    requires Reached(h, 8 * i, At8()) && i < 8
    requires Follow(Block(), 8 * i, W4()) && KRow(i) == K4()
    ensures Reached(h, 8 * i + 4, At9())
  {
    hide Reached, Follow, KRow, Block;
    var k, w, r0 := K4(), W4(), At8();
    var r1 := Next(r0, 0x98e12507, 0x9cd9f5f6);
    OneRound(h, i, 0, k, w, r0, 0x98e12507, 0x9cd9f5f6);
    var r2 := Next(r1, 0xfe604df5, 0x59249dd3);
    OneRound(h, i, 1, k, w, r1, 0xfe604df5, 0x59249dd3);
    var r3 := Next(r2, 0xa9a7738c, 0x085f3833);
    OneRound(h, i, 2, k, w, r2, 0xa9a7738c, 0x085f3833);
    var r4 := Next(r3, 0x65a0cfe4, 0xf4b002d6);
    OneRound(h, i, 3, k, w, r3, 0x65a0cfe4, 0xf4b002d6);
  }

  lemma Rounds9(h: Regs, i: nat)
    requires Reached(h, 8 * i + 4, At9()) && i < 8
    requires Follow(Block(), 8 * i, W4()) && KRow(i) == K4()
    ensures Reached(h, 8 * i + 8, At10())
  {
    hide Reached, Follow, KRow, Block;
    var k, w, r0 := K4(), W4(), At9();
    var r1 := Next(r0, 0x41a65cb1, 0x0772a26b);
    OneRound(h, i, 4, k, w, r0, 0x41a65cb1, 0x0772a26b);
    var r2 := Next(r1, 0x34df1604, 0xa507a53d);
    OneRound(h, i, 5, k, w, r1, 0x34df1604, 0xa507a53d);
    var r3 := Next(r2, 0x6dc57a8a, 0xf0781bc8);
    OneRound(h, i, 6, k, w, r2, 0x6dc57a8a, 0xf0781bc8);
    var r4 := Next(r3, 0x79ea687a, 0x1efbc0a0);
    OneRound(h, i, 7, k, w, r3, 0x79ea687a, 0x1efbc0a0);
  }

  lemma Rounds10(h: Regs, i: nat)
    requires Reached(h, 8 * i, At10()) && i < 8
    requires Follow(Block(), 8 * i, W5()) && KRow(i) == K5()
    ensures Reached(h, 8 * i + 4, At11())
  {
    hide Reached, Follow, KRow, Block;
    var k, w, r0 := K5(), W5(), At10();
    var r1 := Next(r0, 0xd6670766, 0x26352d63);
    OneRound(h, i, 0, k, w, r0, 0xd6670766, 0x26352d63);
    var r2 := Next(r1, 0xdf46652f, 0x838b2711);
    OneRound(h, i, 1, k, w, r1, 0xdf46652f, 0x838b2711);
    var r3 := Next(r2, 0x17aa0dfe, 0xdecd4715);
    OneRound(h, i, 2, k, w, r2, 0x17aa0dfe, 0xdecd4715);
    var r4 := Next(r3, 0x9d4baf93, 0xfda24c2e);
    OneRound(h, i, 3, k, w, r3, 0x9d4baf93, 0xfda24c2e);
  }

  lemma Rounds11(h: Regs, i: nat)
    requires Reached(h, 8 * i + 4, At11()) && i < 8
    requires Follow(Block(), 8 * i, W5()) && KRow(i) == K5()
    ensures Reached(h, 8 * i + 8, At12())
  {
    hide Reached, Follow, KRow, Block;
    var k, w, r0 := K5(), W5(), At11();
    var r1 := Next(r0, 0x26628815, 0xa80f11f0);
    OneRound(h, i, 4, k, w, r0, 0x26628815, 0xa80f11f0);
    var r2 := Next(r1, 0x72ab4b91, 0xb7755da1);
    OneRound(h, i, 5, k, w, r1, 0x72ab4b91, 0xb7755da1);
    var r3 := Next(r2, 0xa14c14b0, 0xd57b94a9);
    OneRound(h, i, 6, k, w, r2, 0xa14c14b0, 0xd57b94a9);
    var r4 := Next(r3, 0x4172328d, 0xfecf0bc6);
    OneRound(h, i, 7, k, w, r3, 0x4172328d, 0xfecf0bc6);
  }

  lemma Rounds12(h: Regs, i: nat)
    requires Reached(h, 8 * i, At12()) && i < 8
    requires Follow(Block(), 8 * i, W6()) && KRow(i) == K6()
    ensures Reached(h, 8 * i + 4, At13())
  {
    hide Reached, Follow, KRow, Block;
    var k, w, r0 := K6(), W6(), At12();
    var r1 := Next(r0, 0x05757ceb, 0xbd714038);
    OneRound(h, i, 0, k, w, r0, 0x05757ceb, 0xbd714038);
    var r2 := Next(r1, 0xf11bfaa8, 0x6e5c390c);
    OneRound(h, i, 1, k, w, r1, 0xf11bfaa8, 0x6e5c390c);
    var r3 := Next(r2, 0x7a0508a1, 0x52f1ccf7);
    OneRound(h, i, 2, k, w, r2, 0x7a0508a1, 0x52f1ccf7);
    var r4 := Next(r3, 0x886e7a22, 0x49231c1e);
    OneRound(h, i, 3, k, w, r3, 0x886e7a22, 0x49231c1e);
  }

  lemma Rounds13(h: Regs, i: nat)
    requires Reached(h, 8 * i + 4, At13()) && i < 8
    requires Follow(Block(), 8 * i, W6()) && KRow(i) == K6()
    ensures Reached(h, 8 * i + 8, At14())
  {
    hide Reached, Follow, KRow, Block;
    var k, w, r0 := K6(), W6(), At13();
    var r1 := Next(r0, 0x101fd28f, 0x529e7d00);
    OneRound(h, i, 4, k, w, r0, 0x101fd28f, 0x529e7d00);
    var r2 := Next(r1, 0xf5702fdb, 0x9f4787c3);
    OneRound(h, i, 5, k, w, r1, 0xf5702fdb, 0x9f4787c3);
    var r3 := Next(r2, 0x3ec45cdb, 0xe50e1b4f);
    OneRound(h, i, 6, k, w, r2, 0x3ec45cdb, 0xe50e1b4f);
    var r4 := Next(r3, 0x38cc9913, 0x54cb266b);
    OneRound(h, i, 7, k, w, r3, 0x38cc9913, 0x54cb266b);
  }

  lemma Rounds14(h: Regs, i: nat)
    requires Reached(h, 8 * i, At14()) && i < 8
    requires Follow(Block(), 8 * i, W7()) && KRow(i) == K7()
    ensures Reached(h, 8 * i + 4, At15())
  {
    hide Reached, Follow, KRow, Block;
    var k, w, r0 := K7(), W7(), At14();
    var r1 := Next(r0, 0xfcd1887b, 0x9b5e906c);
    OneRound(h, i, 0, k, w, r0, 0xfcd1887b, 0x9b5e906c);
    var r2 := Next(r1, 0xc062d46f, 0x7e44008e);
    OneRound(h, i, 1, k, w, r1, 0xc062d46f, 0x7e44008e);
    var r3 := Next(r2, 0xffb70472, 0x6d83bfc6);
    OneRound(h, i, 2, k, w, r2, 0xffb70472, 0x6d83bfc6);
    var r4 := Next(r3, 0xb6ae8fff, 0xb21bad3d);
    OneRound(h, i, 3, k, w, r3, 0xb6ae8fff, 0xb21bad3d);
  }

  lemma Rounds15(h: Regs, i: nat)
    requires Reached(h, 8 * i + 4, At15()) && i < 8
    requires Follow(Block(), 8 * i, W7()) && KRow(i) == K7()
    ensures Reached(h, 8 * i + 8, At16())
  {
    hide Reached, Follow, KRow, Block;
    var k, w, r0 := K7(), W7(), At15();
    var r1 := Next(r0, 0xb85e2ce9, 0x961f4894);
    OneRound(h, i, 4, k, w, r0, 0xb85e2ce9, 0x961f4894);
    var r2 := Next(r1, 0x04d24d6c, 0x948d25b6);
    OneRound(h, i, 5, k, w, r1, 0x04d24d6c, 0x948d25b6);
    var r3 := Next(r2, 0xd39a2165, 0xfb121210);
    OneRound(h, i, 6, k, w, r2, 0xd39a2165, 0xfb121210);
    var r4 := Next(r3, 0x506e3058, 0x5ef50f24);
    OneRound(h, i, 7, k, w, r3, 0x506e3058, 0x5ef50f24);
  }

  lemma AllRounds(h: Regs, t: nat)
    requires h == InitialHash() && t == ROUNDS
    ensures Reached(h, t, At16())
  {
    hide Reached, Follow, KRow, Block, InitialHash;
    hide K0, K1, K2, K3, K4, K5, K6, K7;
    hide W0, W1, W2, W3, W4, W5, W6, W7;
    hide At1, At2, At3, At4, At5, At6, At7, At8;
    hide At9, At10, At11, At12, At13, At14, At15, At16;
    Constants();
    FirstWords();
    NoRounds(h);
    var b := Block();
    Words2(b, 0);
    Words3(b, 8);
    Words4(b, 16);
    Words5(b, 24);
    Words6(b, 32);
    Words7(b, 40);
    Rounds0(h, 0);
    Rounds1(h, 0);
    Rounds2(h, 1);
    Rounds3(h, 1);
    Rounds4(h, 2);
    Rounds5(h, 2);
    Rounds6(h, 3);
    Rounds7(h, 3);
    Rounds8(h, 4);
    Rounds9(h, 4);
    Rounds10(h, 5);
    Rounds11(h, 5);
    Rounds12(h, 6);
    Rounds13(h, 6);
    Rounds14(h, 7);
    Rounds15(h, 7);
  }

  // ---------------------------------------------------------------- the message

  /** The bytes of "abc". */
  const ABC: seq<byte> := [0x61, 0x62, 0x63]

  lemma OneByteField(n: nat, k: nat)
    requires n < 0x100 && k >= 1
    ensures BigEndian(n, k) == Zeros(k - 1) + [n as byte]
  {
    hide BigEndian, Zeros;
    assert n / 0x100 == 0 && n % 0x100 == n;
    FirstBytes(n, k);
    NoBytes(k - 1);
  }

  lemma FirstBytes(n: nat, k: nat)
    requires k >= 1
    ensures BigEndian(n, k) == BigEndian(n / 0x100, k - 1) + [(n % 0x100) as byte]
  {
  }

  lemma {:induction false} NoBytes(k: nat)
    ensures BigEndian(0, k) == Zeros(k)
  {
    if k > 0 {
      NoBytes(k - 1);
    }
  }

  lemma PaddedBytes()
    ensures var s := Padded(ABC);
      && |s| == BLOCK && s[0] == 0x61 && s[1] == 0x62 && s[2] == 0x63 && s[3] == 0x80 && s[63] == 0x18
      && forall i :: 4 <= i < 63 ==> s[i] == 0
  {
    hide BigEndian, Zeros;
    OneByteField(24, 8);
  }

  lemma ZeroWord()
    ensures BytesWord([0, 0, 0, 0]) == Word(0)
    ensures BytesWord([0x61, 0x62, 0x63, 0x80]) == Word(0x61626380)
    ensures BytesWord([0, 0, 0, 0x18]) == Word(0x18)
  {
  }

  lemma BlockIs()
    ensures |Padded(ABC)| == BLOCK && BlockWords(Padded(ABC)) == Block()
  {
    hide Padded, BytesWord;
    PaddedBytes();
    ZeroWord();
    var s := Padded(ABC);
    assert s[0..4] == [0x61, 0x62, 0x63, 0x80];
    forall i | 1 <= i < 15 ensures s[4 * i..4 * i + 4] == [0, 0, 0, 0] {
    }
    assert s[60..64] == [0, 0, 0, 0x18];
  }

  lemma OneBlock(h: Regs, s: seq<byte>)
    requires |s| == BLOCK
    ensures Blocks(Compress, h, s, BLOCK) == Add(h, Rounds(h, BlockWords(s), ROUNDS))
  {
    hide Rounds, BlockWords;
    assert s[..BLOCK] == s && s[BLOCK..] == [];
  }

  lemma MoreWords(ws: seq<word>, w: word, more: seq<word>)
    requires more == ws + [w]
    ensures WordsBytes(more) == WordsBytes(ws) + WordBytes(w)
  {
    assert more[..|ws|] == ws;
  }

  lemma EightWords(a: word, b: word, c: word, d: word, e: word, f: word, g: word, h: word)
    ensures WordsBytes([a, b, c, d, e, f])
         == WordBytes(a) + WordBytes(b) + WordBytes(c) + WordBytes(d) + WordBytes(e) + WordBytes(f)
    ensures WordsBytes([a, b, c, d, e, f, g, h]) == WordsBytes([a, b, c, d, e, f]) + WordBytes(g) + WordBytes(h)
  {
    hide WordBytes, WordsBytes;
    NoWords();
    MoreWords([], a, [a]);
    MoreWords([a], b, [a, b]);
    MoreWords([a, b], c, [a, b, c]);
    MoreWords([a, b, c], d, [a, b, c, d]);
    MoreWords([a, b, c, d], e, [a, b, c, d, e]);
    MoreWords([a, b, c, d, e], f, [a, b, c, d, e, f]);
    MoreWords([a, b, c, d, e, f], g, [a, b, c, d, e, f, g]);
    MoreWords([a, b, c, d, e, f, g], h, [a, b, c, d, e, f, g, h]);
  }

  lemma NoWords()
    ensures WordsBytes([]) == []
  {
  }

  lemma DigestBytes()
    ensures WordBytes(Word(0xba7816bf)) == [0xba, 0x78, 0x16, 0xbf]
    ensures WordBytes(Word(0x8f01cfea)) == [0x8f, 0x01, 0xcf, 0xea]
    ensures WordBytes(Word(0x414140de)) == [0x41, 0x41, 0x40, 0xde]
    ensures WordBytes(Word(0x5dae2223)) == [0x5d, 0xae, 0x22, 0x23]
    ensures WordBytes(Word(0xb00361a3)) == [0xb0, 0x03, 0x61, 0xa3]
    ensures WordBytes(Word(0x96177a9c)) == [0x96, 0x17, 0x7a, 0x9c]
    ensures WordBytes(Word(0xb410ff61)) == [0xb4, 0x10, 0xff, 0x61]
    ensures WordBytes(Word(0xf20015ad)) == [0xf2, 0x00, 0x15, 0xad]
  {
  }

  lemma Final()
    ensures Add(InitialHash(), At16()) ==
      Regs(Word(0xba7816bf), Word(0x8f01cfea), Word(0x414140de), Word(0x5dae2223),
           Word(0xb00361a3), Word(0x96177a9c), Word(0xb410ff61), Word(0xf20015ad))
  {
  }

  /** The digest of "abc". */
  lemma Abc()
    ensures Hash(ABC) ==
        [0xba, 0x78, 0x16, 0xbf, 0x8f, 0x01, 0xcf, 0xea, 0x41, 0x41, 0x40, 0xde, 0x5d, 0xae, 0x22, 0x23,
         0xb0, 0x03, 0x61, 0xa3, 0x96, 0x17, 0x7a, 0x9c, 0xb4, 0x10, 0xff, 0x61, 0xf2, 0x00, 0x15, 0xad]
  {
    hide Rounds, BlockWords, Padded, Block, InitialHash, At16, WordsBytes, WordBytes;
    var h := InitialHash();
    BlockIs();
    AllRounds(h, ROUNDS);
    OneBlock(h, Padded(ABC));
    Final();
    DigestBytes();
    var r := Add(h, At16());
    EightWords(r.a, r.b, r.c, r.d, r.e, r.f, r.g, r.h);
  }
}
