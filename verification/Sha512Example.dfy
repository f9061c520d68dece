/** The example of FIPS 180-4 with one block, the message "abc", round by round. */
module Sha512Example {
  import opened Streaming
  import opened Sha512

  // ---------------------------------------------------------------- the message schedule

  function W0(): (w: seq<word>)
    ensures |w| == 8
  {
    [Word(0x6162638000000000), Word(0x0000000000000000), Word(0x0000000000000000), Word(0x0000000000000000),
     Word(0x0000000000000000), Word(0x0000000000000000), Word(0x0000000000000000), Word(0x0000000000000000)]
  }

  function W1(): (w: seq<word>)
    ensures |w| == 8
  {
    [Word(0x0000000000000000), Word(0x0000000000000000), Word(0x0000000000000000), Word(0x0000000000000000),
     Word(0x0000000000000000), Word(0x0000000000000000), Word(0x0000000000000000), Word(0x0000000000000018)]
  }

  function W2(): (w: seq<word>)
    ensures |w| == 8
  {
    [Word(0x6162638000000000), Word(0x00030000000000c0), Word(0x0a9699a24c700003), Word(0x00000c0060000603),
     Word(0x549ef62639858996), Word(0x00c0003300003c00), Word(0x1497007a8a0e9dbc), Word(0x62e56500cc0780f0)]
  }

  function W3(): (w: seq<word>)
    ensures |w| == 8
  {
    [Word(0x7760dd475a538797), Word(0xf1554b711c1c0003), Word(0xca2993a4345d9ff2), Word(0x5e0e66b5c783dd32),
     Word(0xe25a625d00494b62), Word(0x9f44486fb1e4fbd2), Word(0xb31b8c2b06085f2f), Word(0x0e987660934142f6)]
  }

  function W4(): (w: seq<word>)
    ensures |w| == 8
  {
    [Word(0xa4af2cfd09fbb924), Word(0xad289e2e0bd53186), Word(0x3c74563aa2f9673e), Word(0x6ccdcd14cc14b53f),
     Word(0xc3f925b337f22bde), Word(0x5bcc77a75ad95b54), Word(0x3ec2257adca09a52), Word(0x28246960001fc5eb)]
  }

  function W5(): (w: seq<word>)
    ensures |w| == 8
  {
    [Word(0x04e33a75ce2be88a), Word(0x7d5314b3c359e0e7), Word(0xaef7a285ff251266), Word(0x0b8472581deea04f),
     Word(0xb174e26eddc7b033), Word(0x5d63bae58ddd88de), Word(0x4c044007b744ccbb), Word(0xe6a9aa4d74dc7d43)]
  }

  function W6(): (w: seq<word>)
    ensures |w| == 8
  {
    [Word(0xebeaf1237248019c), Word(0x361e80b2d00f3193), Word(0x2e9839125df3b175), Word(0x3319629293ad5363),
     Word(0x9cbc5d89ac1b89d5), Word(0x275e23ffeeca50b7), Word(0x3b80d680bf69ef58), Word(0x0d0696933945a125)]
  }

  function W7(): (w: seq<word>)
    ensures |w| == 8
  {
    [Word(0x7533eabcb786ff00), Word(0xb89826cee6fbf0e5), Word(0x249b4fbcad623e9f), Word(0x4aea9df2b02d6f1e),
     Word(0x2cc57475a55e8d8f), Word(0xb2574ae938d8be89), Word(0xc1b35a57b16d6aea), Word(0xcc4918b5949206bb)]
  }

  function W8(): (w: seq<word>)
    ensures |w| == 8
  {
    [Word(0x5099c3add79f90ec), Word(0x5ea81d78e7660bf1), Word(0xebee6267405ac2a9), Word(0xb01f21926108a4ab),
     Word(0x786433dd2fe65556), Word(0xc54a6eaa24a0552c), Word(0xb3c8f1530bdbaa9e), Word(0xbb8abfe56f469338)]
  }

  function W9(): (w: seq<word>)
    ensures |w| == 8
  {
    [Word(0xf63d4265cc1c5a78), Word(0xbe8355ea73129afb), Word(0x49e2db8ebdcfbeb5), Word(0x82269d4a883a3d99),
     Word(0xfdf53df3011f362b), Word(0x464af5671d71c12e), Word(0xe449b68198ec611c), Word(0x92aeeed1a7bcf7d2)]
  }

  /** The words of the block. */
  function Block(): (b: seq<word>)
    ensures |b| == 16
  {
    W0() + W1()
  }

  /** The eight words of the schedule from t on. */
  ghost predicate Follow(b: seq<word>, t: nat, w: seq<word>) {
    && |b| == 16 && |w| == 8
    && Schedule(b, t) == w[0] && Schedule(b, t + 1) == w[1] && Schedule(b, t + 2) == w[2]
    && Schedule(b, t + 3) == w[3] && Schedule(b, t + 4) == w[4] && Schedule(b, t + 5) == w[5]
    && Schedule(b, t + 6) == w[6] && Schedule(b, t + 7) == w[7]
  }

  lemma FirstWords()
    ensures Follow(Block(), 0, W0()) && Follow(Block(), 8, W1())
  {
    hide W0, W1;
  }

  lemma WordIs(b: seq<word>, t: nat)
    requires |b| == 16
    ensures Schedule(b, t + 16)
         == Expand(Schedule(b, t), Schedule(b, t + 1), Schedule(b, t + 9), Schedule(b, t + 14))
  {
  }

  lemma EightMore(b: seq<word>, t: nat, u: seq<word>, v: seq<word>, w: seq<word>)
    requires Follow(b, t, u) && Follow(b, t + 8, v) && |w| == 8
    requires w[0] == Expand(u[0], u[1], v[1], v[6]) && w[1] == Expand(u[1], u[2], v[2], v[7])
    requires w[2] == Expand(u[2], u[3], v[3], w[0]) && w[3] == Expand(u[3], u[4], v[4], w[1])
    requires w[4] == Expand(u[4], u[5], v[5], w[2]) && w[5] == Expand(u[5], u[6], v[6], w[3])
    requires w[6] == Expand(u[6], u[7], v[7], w[4]) && w[7] == Expand(u[7], v[0], w[0], w[5])
    ensures Follow(b, t + 16, w)
  {
    hide Schedule, Expand;
    WordIs(b, t);
    WordIs(b, t + 1);
    WordIs(b, t + 2);
    WordIs(b, t + 3);
    WordIs(b, t + 4);
    WordIs(b, t + 5);
    WordIs(b, t + 6);
    WordIs(b, t + 7);
  }


  lemma Words2(b: seq<word>, t: nat)
    requires Follow(b, t, W0()) && Follow(b, t + 8, W1())
    ensures Follow(b, t + 16, W2())
  {
    hide Follow;
    EightMore(b, t, W0(), W1(), W2());
  }

  lemma Words3(b: seq<word>, t: nat)
    requires Follow(b, t, W1()) && Follow(b, t + 8, W2())
    ensures Follow(b, t + 16, W3())
  {
    hide Follow;
    EightMore(b, t, W1(), W2(), W3());
  }

  lemma Words4(b: seq<word>, t: nat)
    requires Follow(b, t, W2()) && Follow(b, t + 8, W3())
    ensures Follow(b, t + 16, W4())
  {
    hide Follow;
    EightMore(b, t, W2(), W3(), W4());
  }

  lemma Words5(b: seq<word>, t: nat)
    requires Follow(b, t, W3()) && Follow(b, t + 8, W4())
    ensures Follow(b, t + 16, W5())
  {
    hide Follow;
    EightMore(b, t, W3(), W4(), W5());
  }

  lemma Words6(b: seq<word>, t: nat)
    requires Follow(b, t, W4()) && Follow(b, t + 8, W5())
    ensures Follow(b, t + 16, W6())
  {
    hide Follow;
    EightMore(b, t, W4(), W5(), W6());
  }

  lemma Words7(b: seq<word>, t: nat)
    requires Follow(b, t, W5()) && Follow(b, t + 8, W6())
    ensures Follow(b, t + 16, W7())
  {
    hide Follow;
    EightMore(b, t, W5(), W6(), W7());
  }

  lemma Words8(b: seq<word>, t: nat)
    requires Follow(b, t, W6()) && Follow(b, t + 8, W7())
    ensures Follow(b, t + 16, W8())
  {
    hide Follow;
    EightMore(b, t, W6(), W7(), W8());
  }

  lemma Words9(b: seq<word>, t: nat)
    requires Follow(b, t, W7()) && Follow(b, t + 8, W8())
    ensures Follow(b, t + 16, W9())
  {
    hide Follow;
    EightMore(b, t, W7(), W8(), W9());
  }

  // ---------------------------------------------------------------- the rounds

  /** The registers move on by one; the first and the fifth are new. */
  function Next(r: Regs, a: bv64, e: bv64): Regs {
    Regs(Word(a), r.a, r.b, r.c, Word(e), r.e, r.f, r.g)
  }

  ghost predicate Reached(h: Regs, t: nat, r: Regs) {
    t <= ROUNDS && Rounds(h, Block(), t) == r
  }

  lemma NoRounds(h: Regs)
    ensures Reached(h, 0, h)
  {
  }

  /** Round 8 * i + j, with its constant and its word. */
  lemma OneRound(h: Regs, i: nat, j: nat, k: seq<bv64>, w: seq<word>, r: Regs, a: bv64, e: bv64)
    requires j < 8 && 8 * i + j < ROUNDS && Reached(h, 8 * i + j, r) && KRow(i) == k
    requires Follow(Block(), 8 * i, w) && |k| == 8 && Round(r, Word(k[j]), w[j]) == Next(r, a, e)
    ensures Reached(h, 8 * i + j + 1, Next(r, a, e))
  {
    hide KRow, Round, Schedule;
    var t := 8 * i + j;
    assert t / 8 == i && t % 8 == j;
  }

  lemma Constants()
    ensures KRow(0) == K0()
    ensures KRow(1) == K1()
    ensures KRow(2) == K2()
    ensures KRow(3) == K3()
    ensures KRow(4) == K4()
    ensures KRow(5) == K5()
    ensures KRow(6) == K6()
    ensures KRow(7) == K7()
    ensures KRow(8) == K8()
    ensures KRow(9) == K9()
  {
    hide K0, K1, K2, K3, K4, K5, K6, K7, K8, K9;
  }

  // ---------------------------------------------------------------- the registers after every fourth round

  function At1(): Regs {
    Regs(Word(0x5a83cb3e80050e82), Word(0xebcffc07203d91f3), Word(0x1320f8c9fb872cc0), Word(0xf6afceb8bcfcddf5),
         Word(0x0b47b4bb1928990e), Word(0xdfa9b239f2697812), Word(0xc3d4ebfd48650ffa), Word(0x58cb02347ab51f91))
  }

  function At2(): Regs {
    Regs(Word(0x8093d195e0054fa3), Word(0xc4875b0c7abc076b), Word(0xaf573b02403e89cd), Word(0xb680953951604860),
         Word(0x86f67263a0f0ec0a), Word(0x5a6c781f54dcc00c), Word(0x96f60209b6dc35ba), Word(0x745aca4a342ed2e2))
  }

  function At3(): Regs {
    Regs(Word(0xdb0a9963f80c2eaa), Word(0x69854c4aa0f25b59), Word(0x81782d4a5db48f03), Word(0xf1eca5544cb89225),
         Word(0x475975b91a7a462c), Word(0xd375471bde1ba3f4), Word(0x00091f460be46c52), Word(0xd0403c398fc40002))
  }

  function At4(): Regs {
    Regs(Word(0x0ae07c86b1181c75), Word(0xfa967eed85a08028), Word(0x44249631255d2ca0), Word(0x5e41214388186c14),
         Word(0xa77b7c035dd4c161), Word(0x874bfe5f6aae9f2f), Word(0x860acf9effba6f61), Word(0xcdf3bff2883fc9d9))
  }

  function At5(): Regs {
    Regs(Word(0x9a3fb4d38ab6cf06), Word(0x3c4b4104168e3edb), Word(0x4725be249ad19e6b), Word(0xcaf81a425d800537),
         Word(0xf14998dd5f70767e), Word(0x29695fd88d81dbd0), Word(0xf47e8353f8047455), Word(0x2deecc6b39d64d78))
  }

  function At6(): Regs {
    Regs(Word(0x4f6877b58fe55484), Word(0x3e2644567b709a78), Word(0xda34d6673d452dcf), Word(0x8dc5ae65569d3855),
         Word(0xc66005f87db55233), Word(0x0ac2b11da8f571c6), Word(0x8e30ff09ad488753), Word(0x4bb9e66d1145bfdc))
  }

  function At7(): Regs {
    Regs(Word(0xeab4a9e5771b8d09), Word(0x884c3bc27bc4f941), Word(0x0bc5f791f8e6816b), Word(0x9aff71163fa3a940),
         Word(0x09068a4e255a0dac), Word(0xe6e48c9a8e948365), Word(0x6ddf1fd7edcce336), Word(0xd3ecf13769180e6f))
  }

  function At8(): Regs {
    Regs(Word(0xff4d3f1f0d46a736), Word(0x4c4fbbb75f1873a6), Word(0x74bf40f869094c63), Word(0xe62349090f47d30a),
         Word(0x3cd388e119e8162e), Word(0x73e025d91b9efea3), Word(0xf0aec2fe1437f085), Word(0x0fcdf99710f21584))
  }

  function At9(): Regs {
    Regs(Word(0x1a081afc59fdbc2c), Word(0x2c59ec7743632621), Word(0x60d4e6995ed91fe6), Word(0xa0509015ca08c8d4),
         Word(0xf098082f502b44cd), Word(0x0fbae670fa780fd3), Word(0xefabbd8bf47c041a), Word(0xe1034573654a106f))
  }

  function At10(): Regs {
    Regs(Word(0x8e01e125b855d225), Word(0xb3bb8542b3376de5), Word(0x002bb8e4cd989567), Word(0x88df85b0bbe77514),
         Word(0x0c710a47ba6a567b), Word(0xb49596c20feba7de), Word(0x66adcfa249ac7bbd), Word(0x8fbfd0162bbf4675))
  }

  function At11(): Regs {
    Regs(Word(0x35d7e7f41defcbd5), Word(0xbc05ba8de5d3c480), Word(0xe96f89dd48cbd851), Word(0xb01521dd6a6be12c),
         Word(0xcc5100997f5710f2), Word(0x639cb938e14dc190), Word(0xf0996439e7b50cb1), Word(0x169008b3a4bb170b))
  }

  function At12(): Regs {
    Regs(Word(0x6b69fc1bb482feac), Word(0xf61e672694de2d67), Word(0x021fbadbabab5ac6), Word(0xc47c9d5c7ea8a234),
         Word(0x35264334c03ac8ad), Word(0xc6bc35740d8daa9a), Word(0xe95c2a57572d64d9), Word(0x858d832ae0e8911c))
  }

  function At13(): Regs {
    Regs(Word(0xd43f83727325dd77), Word(0x813a43dd2c502043), Word(0xca9bd862c5050918), Word(0x571f323d96b3a047),
         Word(0x483f80a82eaee23e), Word(0x07a0d8ef821c5e1a), Word(0xdfe091dab182e645), Word(0x271580ed6c3e5650))
  }

  function At14(): Regs {
    Regs(Word(0x63b460e42748817e), Word(0xf650857b5babda4d), Word(0xd63f68037ddf06aa), Word(0x03df11b32d42e203),
         Word(0xc6b4dd2a9931c509), Word(0x9ccfb31a86df0f86), Word(0xa6781efe1aa1ce02), Word(0x504f94e40591cffa))
  }

  function At15(): Regs {
    Regs(Word(0x2c074484ef1eac8c), Word(0x581ecb3355dcd9b8), Word(0x4b81c3aec976ea4b), Word(0x7a52912943d52b05),
         Word(0x4797cde4ed370692), Word(0x6a3c9b0f71c8bf36), Word(0x70505988124351ac), Word(0xd2e89bbd91e00be0))
  }

  function At16(): Regs {
    Regs(Word(0xab44e86276478d85), Word(0xa81dedbb9f19e643), Word(0xcfcd928c5424e2b6), Word(0x3857dfd2fc37d3ba),
         Word(0xcd881ee59ca6bc53), Word(0x84058865d60a05fa), Word(0x09aee5bda1644de5), Word(0xa6af4e9c9f807e51))
  }

  function At17(): Regs {
    Regs(Word(0x54ba35cf56a0340e), Word(0x46c4210ab2cc155d), Word(0xeeb9c21bb0102598), Word(0x5a806d7e9821a501),
         Word(0x1c66f46d95690bcf), Word(0x29fab5a7bff53366), Word(0x3b5fed0d6a1f96e1), Word(0xaa84b086688a5c45))
  }

  function At18(): Regs {
    Regs(Word(0xf15e9664b2803575), Word(0x7652c579cb60f19c), Word(0xfb6aaae5d0b6a447), Word(0x181839d609c79748),
         Word(0x947c3dfafee570ef), Word(0xaff62c9665ff80fa), Word(0xe3711cb6564d112d), Word(0x0ada78ba2d446140))
  }

  function At19(): Regs {
    Regs(Word(0xc8960e6be864b916), Word(0x33d48dabb5521de2), Word(0x20878dcd29cdfaf5), Word(0x358406d165aee9ab),
         Word(0x995019a6ff3ba3de), Word(0x2ba18245b50de4cf), Word(0x054d3536539948d0), Word(0x8c7b5fd91a794ca0))
  }

  function At20(): Regs {
    Regs(Word(0x73a54f399fa4b1b2), Word(0x10d9c4c4295599f6), Word(0xd67806db8b148677), Word(0x654ef9abec389ca9),
         Word(0xd08446aa79693ed7), Word(0x9bb4d39778c07f9e), Word(0x25c96a7768fb2aa3), Word(0xceb9fc3691ce8326))
  }

  lemma Rounds0(h: Regs, i: nat)
    requires Reached(h, 8 * i, InitialHash()) && i < 10
    requires Follow(Block(), 8 * i, W0()) && KRow(i) == K0()
    ensures Reached(h, 8 * i + 4, At1())
  {
    hide Reached, Follow, KRow, Block;
    var k, w, r0 := K0(), W0(), InitialHash();
    var r1 := Next(r0, 0xf6afceb8bcfcddf5, 0x58cb02347ab51f91);
    OneRound(h, i, 0, k, w, r0, 0xf6afceb8bcfcddf5, 0x58cb02347ab51f91);
    var r2 := Next(r1, 0x1320f8c9fb872cc0, 0xc3d4ebfd48650ffa);
    OneRound(h, i, 1, k, w, r1, 0x1320f8c9fb872cc0, 0xc3d4ebfd48650ffa);
    var r3 := Next(r2, 0xebcffc07203d91f3, 0xdfa9b239f2697812);
    OneRound(h, i, 2, k, w, r2, 0xebcffc07203d91f3, 0xdfa9b239f2697812);
    var r4 := Next(r3, 0x5a83cb3e80050e82, 0x0b47b4bb1928990e);
    OneRound(h, i, 3, k, w, r3, 0x5a83cb3e80050e82, 0x0b47b4bb1928990e);
  }

  lemma Rounds1(h: Regs, i: nat)
    requires Reached(h, 8 * i + 4, At1()) && i < 10
    requires Follow(Block(), 8 * i, W0()) && KRow(i) == K0()
    ensures Reached(h, 8 * i + 8, At2())
  {
    hide Reached, Follow, KRow, Block;
    var k, w, r0 := K0(), W0(), At1();
    var r1 := Next(r0, 0xb680953951604860, 0x745aca4a342ed2e2);
    OneRound(h, i, 4, k, w, r0, 0xb680953951604860, 0x745aca4a342ed2e2);
    var r2 := Next(r1, 0xaf573b02403e89cd, 0x96f60209b6dc35ba);
    OneRound(h, i, 5, k, w, r1, 0xaf573b02403e89cd, 0x96f60209b6dc35ba);
    var r3 := Next(r2, 0xc4875b0c7abc076b, 0x5a6c781f54dcc00c);
    OneRound(h, i, 6, k, w, r2, 0xc4875b0c7abc076b, 0x5a6c781f54dcc00c);
    var r4 := Next(r3, 0x8093d195e0054fa3, 0x86f67263a0f0ec0a);
    OneRound(h, i, 7, k, w, r3, 0x8093d195e0054fa3, 0x86f67263a0f0ec0a);
  }

  lemma Rounds2(h: Regs, i: nat)
    requires Reached(h, 8 * i, At2()) && i < 10
    requires Follow(Block(), 8 * i, W1()) && KRow(i) == K1()
    ensures Reached(h, 8 * i + 4, At3())
  {
    hide Reached, Follow, KRow, Block;
    var k, w, r0 := K1(), W1(), At2();
    var r1 := Next(r0, 0xf1eca5544cb89225, 0xd0403c398fc40002);
    OneRound(h, i, 0, k, w, r0, 0xf1eca5544cb89225, 0xd0403c398fc40002);
    var r2 := Next(r1, 0x81782d4a5db48f03, 0x00091f460be46c52);
    OneRound(h, i, 1, k, w, r1, 0x81782d4a5db48f03, 0x00091f460be46c52);
    var r3 := Next(r2, 0x69854c4aa0f25b59, 0xd375471bde1ba3f4);
    OneRound(h, i, 2, k, w, r2, 0x69854c4aa0f25b59, 0xd375471bde1ba3f4);
    var r4 := Next(r3, 0xdb0a9963f80c2eaa, 0x475975b91a7a462c);
    OneRound(h, i, 3, k, w, r3, 0xdb0a9963f80c2eaa, 0x475975b91a7a462c);
  }

  lemma Rounds3(h: Regs, i: nat)
    requires Reached(h, 8 * i + 4, At3()) && i < 10
    requires Follow(Block(), 8 * i, W1()) && KRow(i) == K1()
    ensures Reached(h, 8 * i + 8, At4())
  {
    hide Reached, Follow, KRow, Block;
    var k, w, r0 := K1(), W1(), At3();
    var r1 := Next(r0, 0x5e41214388186c14, 0xcdf3bff2883fc9d9);
    OneRound(h, i, 4, k, w, r0, 0x5e41214388186c14, 0xcdf3bff2883fc9d9);
    var r2 := Next(r1, 0x44249631255d2ca0, 0x860acf9effba6f61);
    OneRound(h, i, 5, k, w, r1, 0x44249631255d2ca0, 0x860acf9effba6f61);
    var r3 := Next(r2, 0xfa967eed85a08028, 0x874bfe5f6aae9f2f);
    OneRound(h, i, 6, k, w, r2, 0xfa967eed85a08028, 0x874bfe5f6aae9f2f);
    var r4 := Next(r3, 0x0ae07c86b1181c75, 0xa77b7c035dd4c161);
    OneRound(h, i, 7, k, w, r3, 0x0ae07c86b1181c75, 0xa77b7c035dd4c161);
  }

  lemma Rounds4(h: Regs, i: nat)
    requires Reached(h, 8 * i, At4()) && i < 10
    requires Follow(Block(), 8 * i, W2()) && KRow(i) == K2()
    ensures Reached(h, 8 * i + 4, At5())
  {
    hide Reached, Follow, KRow, Block;
    var k, w, r0 := K2(), W2(), At4();
    var r1 := Next(r0, 0xcaf81a425d800537, 0x2deecc6b39d64d78);
    OneRound(h, i, 0, k, w, r0, 0xcaf81a425d800537, 0x2deecc6b39d64d78);
    var r2 := Next(r1, 0x4725be249ad19e6b, 0xf47e8353f8047455);
    OneRound(h, i, 1, k, w, r1, 0x4725be249ad19e6b, 0xf47e8353f8047455);
    var r3 := Next(r2, 0x3c4b4104168e3edb, 0x29695fd88d81dbd0);
    OneRound(h, i, 2, k, w, r2, 0x3c4b4104168e3edb, 0x29695fd88d81dbd0);
    var r4 := Next(r3, 0x9a3fb4d38ab6cf06, 0xf14998dd5f70767e);
    OneRound(h, i, 3, k, w, r3, 0x9a3fb4d38ab6cf06, 0xf14998dd5f70767e);
  }

  lemma Rounds5(h: Regs, i: nat)
    requires Reached(h, 8 * i + 4, At5()) && i < 10
    requires Follow(Block(), 8 * i, W2()) && KRow(i) == K2()
    ensures Reached(h, 8 * i + 8, At6())
  {
    hide Reached, Follow, KRow, Block;
    var k, w, r0 := K2(), W2(), At5();
    var r1 := Next(r0, 0x8dc5ae65569d3855, 0x4bb9e66d1145bfdc);
    OneRound(h, i, 4, k, w, r0, 0x8dc5ae65569d3855, 0x4bb9e66d1145bfdc);
    var r2 := Next(r1, 0xda34d6673d452dcf, 0x8e30ff09ad488753);
    OneRound(h, i, 5, k, w, r1, 0xda34d6673d452dcf, 0x8e30ff09ad488753);
    var r3 := Next(r2, 0x3e2644567b709a78, 0x0ac2b11da8f571c6);
    OneRound(h, i, 6, k, w, r2, 0x3e2644567b709a78, 0x0ac2b11da8f571c6);
    var r4 := Next(r3, 0x4f6877b58fe55484, 0xc66005f87db55233);
    OneRound(h, i, 7, k, w, r3, 0x4f6877b58fe55484, 0xc66005f87db55233);
  }

  lemma Rounds6(h: Regs, i: nat)
    requires Reached(h, 8 * i, At6()) && i < 10
    requires Follow(Block(), 8 * i, W3()) && KRow(i) == K3()
    ensures Reached(h, 8 * i + 4, At7())
  {
    hide Reached, Follow, KRow, Block;
    var k, w, r0 := K3(), W3(), At6();
    var r1 := Next(r0, 0x9aff71163fa3a940, 0xd3ecf13769180e6f);
    OneRound(h, i, 0, k, w, r0, 0x9aff71163fa3a940, 0xd3ecf13769180e6f);
    var r2 := Next(r1, 0x0bc5f791f8e6816b, 0x6ddf1fd7edcce336);
    OneRound(h, i, 1, k, w, r1, 0x0bc5f791f8e6816b, 0x6ddf1fd7edcce336);
    var r3 := Next(r2, 0x884c3bc27bc4f941, 0xe6e48c9a8e948365);
    OneRound(h, i, 2, k, w, r2, 0x884c3bc27bc4f941, 0xe6e48c9a8e948365);
    var r4 := Next(r3, 0xeab4a9e5771b8d09, 0x09068a4e255a0dac);
    OneRound(h, i, 3, k, w, r3, 0xeab4a9e5771b8d09, 0x09068a4e255a0dac);
  }

  lemma Rounds7(h: Regs, i: nat)
    requires Reached(h, 8 * i + 4, At7()) && i < 10
    requires Follow(Block(), 8 * i, W3()) && KRow(i) == K3()
    ensures Reached(h, 8 * i + 8, At8())
  {
    hide Reached, Follow, KRow, Block;
    var k, w, r0 := K3(), W3(), At7();
    var r1 := Next(r0, 0xe62349090f47d30a, 0x0fcdf99710f21584);
    OneRound(h, i, 4, k, w, r0, 0xe62349090f47d30a, 0x0fcdf99710f21584);
    var r2 := Next(r1, 0x74bf40f869094c63, 0xf0aec2fe1437f085);
    OneRound(h, i, 5, k, w, r1, 0x74bf40f869094c63, 0xf0aec2fe1437f085);
    var r3 := Next(r2, 0x4c4fbbb75f1873a6, 0x73e025d91b9efea3);
    OneRound(h, i, 6, k, w, r2, 0x4c4fbbb75f1873a6, 0x73e025d91b9efea3);
    var r4 := Next(r3, 0xff4d3f1f0d46a736, 0x3cd388e119e8162e);
    OneRound(h, i, 7, k, w, r3, 0xff4d3f1f0d46a736, 0x3cd388e119e8162e);
  }

  lemma Rounds8(h: Regs, i: nat)
    requires Reached(h, 8 * i, At8()) && i < 10
    requires Follow(Block(), 8 * i, W4()) && KRow(i) == K4()
    ensures Reached(h, 8 * i + 4, At9())
  {
    hide Reached, Follow, KRow, Block;
    var k, w, r0 := K4(), W4(), At8();
    var r1 := Next(r0, 0xa0509015ca08c8d4, 0xe1034573654a106f);
    OneRound(h, i, 0, k, w, r0, 0xa0509015ca08c8d4, 0xe1034573654a106f);
    var r2 := Next(r1, 0x60d4e6995ed91fe6, 0xefabbd8bf47c041a);
    OneRound(h, i, 1, k, w, r1, 0x60d4e6995ed91fe6, 0xefabbd8bf47c041a);
    var r3 := Next(r2, 0x2c59ec7743632621, 0x0fbae670fa780fd3);
    OneRound(h, i, 2, k, w, r2, 0x2c59ec7743632621, 0x0fbae670fa780fd3);
    var r4 := Next(r3, 0x1a081afc59fdbc2c, 0xf098082f502b44cd);
    OneRound(h, i, 3, k, w, r3, 0x1a081afc59fdbc2c, 0xf098082f502b44cd);
  }

  lemma Rounds9(h: Regs, i: nat)
    requires Reached(h, 8 * i + 4, At9()) && i < 10
    requires Follow(Block(), 8 * i, W4()) && KRow(i) == K4()
    ensures Reached(h, 8 * i + 8, At10())
  {
    hide Reached, Follow, KRow, Block;
    var k, w, r0 := K4(), W4(), At9();
    var r1 := Next(r0, 0x88df85b0bbe77514, 0x8fbfd0162bbf4675);
    OneRound(h, i, 4, k, w, r0, 0x88df85b0bbe77514, 0x8fbfd0162bbf4675);
    var r2 := Next(r1, 0x002bb8e4cd989567, 0x66adcfa249ac7bbd);
    OneRound(h, i, 5, k, w, r1, 0x002bb8e4cd989567, 0x66adcfa249ac7bbd);
    var r3 := Next(r2, 0xb3bb8542b3376de5, 0xb49596c20feba7de);
    OneRound(h, i, 6, k, w, r2, 0xb3bb8542b3376de5, 0xb49596c20feba7de);
    var r4 := Next(r3, 0x8e01e125b855d225, 0x0c710a47ba6a567b);
    OneRound(h, i, 7, k, w, r3, 0x8e01e125b855d225, 0x0c710a47ba6a567b);
  }

  lemma Rounds10(h: Regs, i: nat)
    requires Reached(h, 8 * i, At10()) && i < 10
    requires Follow(Block(), 8 * i, W5()) && KRow(i) == K5()
    ensures Reached(h, 8 * i + 4, At11())
  {
    hide Reached, Follow, KRow, Block;
    var k, w, r0 := K5(), W5(), At10();
    var r1 := Next(r0, 0xb01521dd6a6be12c, 0x169008b3a4bb170b);
    OneRound(h, i, 0, k, w, r0, 0xb01521dd6a6be12c, 0x169008b3a4bb170b);
    var r2 := Next(r1, 0xe96f89dd48cbd851, 0xf0996439e7b50cb1);
    OneRound(h, i, 1, k, w, r1, 0xe96f89dd48cbd851, 0xf0996439e7b50cb1);
    var r3 := Next(r2, 0xbc05ba8de5d3c480, 0x639cb938e14dc190);
    OneRound(h, i, 2, k, w, r2, 0xbc05ba8de5d3c480, 0x639cb938e14dc190);
    var r4 := Next(r3, 0x35d7e7f41defcbd5, 0xcc5100997f5710f2);
    OneRound(h, i, 3, k, w, r3, 0x35d7e7f41defcbd5, 0xcc5100997f5710f2);
  }

  lemma Rounds11(h: Regs, i: nat)
    requires Reached(h, 8 * i + 4, At11()) && i < 10
    requires Follow(Block(), 8 * i, W5()) && KRow(i) == K5()
    ensures Reached(h, 8 * i + 8, At12())
  {
    hide Reached, Follow, KRow, Block;
    var k, w, r0 := K5(), W5(), At11();
    var r1 := Next(r0, 0xc47c9d5c7ea8a234, 0x858d832ae0e8911c);
    OneRound(h, i, 4, k, w, r0, 0xc47c9d5c7ea8a234, 0x858d832ae0e8911c);
    var r2 := Next(r1, 0x021fbadbabab5ac6, 0xe95c2a57572d64d9);
    OneRound(h, i, 5, k, w, r1, 0x021fbadbabab5ac6, 0xe95c2a57572d64d9);
    var r3 := Next(r2, 0xf61e672694de2d67, 0xc6bc35740d8daa9a);
    OneRound(h, i, 6, k, w, r2, 0xf61e672694de2d67, 0xc6bc35740d8daa9a);
    var r4 := Next(r3, 0x6b69fc1bb482feac, 0x35264334c03ac8ad);
    OneRound(h, i, 7, k, w, r3, 0x6b69fc1bb482feac, 0x35264334c03ac8ad);
  }

  lemma Rounds12(h: Regs, i: nat)
    requires Reached(h, 8 * i, At12()) && i < 10
    requires Follow(Block(), 8 * i, W6()) && KRow(i) == K6()
    ensures Reached(h, 8 * i + 4, At13())
  {
    hide Reached, Follow, KRow, Block;
    var k, w, r0 := K6(), W6(), At12();
    var r1 := Next(r0, 0x571f323d96b3a047, 0x271580ed6c3e5650);
    OneRound(h, i, 0, k, w, r0, 0x571f323d96b3a047, 0x271580ed6c3e5650);
    var r2 := Next(r1, 0xca9bd862c5050918, 0xdfe091dab182e645);
    OneRound(h, i, 1, k, w, r1, 0xca9bd862c5050918, 0xdfe091dab182e645);
    var r3 := Next(r2, 0x813a43dd2c502043, 0x07a0d8ef821c5e1a);
    OneRound(h, i, 2, k, w, r2, 0x813a43dd2c502043, 0x07a0d8ef821c5e1a);
    var r4 := Next(r3, 0xd43f83727325dd77, 0x483f80a82eaee23e);
    OneRound(h, i, 3, k, w, r3, 0xd43f83727325dd77, 0x483f80a82eaee23e);
  }

  lemma Rounds13(h: Regs, i: nat)
    requires Reached(h, 8 * i + 4, At13()) && i < 10
    requires Follow(Block(), 8 * i, W6()) && KRow(i) == K6()
    ensures Reached(h, 8 * i + 8, At14())
  {
    hide Reached, Follow, KRow, Block;
    var k, w, r0 := K6(), W6(), At13();
    var r1 := Next(r0, 0x03df11b32d42e203, 0x504f94e40591cffa);
    OneRound(h, i, 4, k, w, r0, 0x03df11b32d42e203, 0x504f94e40591cffa);
    var r2 := Next(r1, 0xd63f68037ddf06aa, 0xa6781efe1aa1ce02);
    OneRound(h, i, 5, k, w, r1, 0xd63f68037ddf06aa, 0xa6781efe1aa1ce02);
    var r3 := Next(r2, 0xf650857b5babda4d, 0x9ccfb31a86df0f86);
    OneRound(h, i, 6, k, w, r2, 0xf650857b5babda4d, 0x9ccfb31a86df0f86);
    var r4 := Next(r3, 0x63b460e42748817e, 0xc6b4dd2a9931c509);
    OneRound(h, i, 7, k, w, r3, 0x63b460e42748817e, 0xc6b4dd2a9931c509);
  }

  lemma Rounds14(h: Regs, i: nat)
    requires Reached(h, 8 * i, At14()) && i < 10
    requires Follow(Block(), 8 * i, W7()) && KRow(i) == K7()
    ensures Reached(h, 8 * i + 4, At15())
  {
    hide Reached, Follow, KRow, Block;
    var k, w, r0 := K7(), W7(), At14();
    var r1 := Next(r0, 0x7a52912943d52b05, 0xd2e89bbd91e00be0);
    OneRound(h, i, 0, k, w, r0, 0x7a52912943d52b05, 0xd2e89bbd91e00be0);
    var r2 := Next(r1, 0x4b81c3aec976ea4b, 0x70505988124351ac);
    OneRound(h, i, 1, k, w, r1, 0x4b81c3aec976ea4b, 0x70505988124351ac);
    var r3 := Next(r2, 0x581ecb3355dcd9b8, 0x6a3c9b0f71c8bf36);
    OneRound(h, i, 2, k, w, r2, 0x581ecb3355dcd9b8, 0x6a3c9b0f71c8bf36);
    var r4 := Next(r3, 0x2c074484ef1eac8c, 0x4797cde4ed370692);
    OneRound(h, i, 3, k, w, r3, 0x2c074484ef1eac8c, 0x4797cde4ed370692);
  }

  lemma Rounds15(h: Regs, i: nat)
    requires Reached(h, 8 * i + 4, At15()) && i < 10
    requires Follow(Block(), 8 * i, W7()) && KRow(i) == K7()
    ensures Reached(h, 8 * i + 8, At16())
  {
    hide Reached, Follow, KRow, Block;
    var k, w, r0 := K7(), W7(), At15();
    var r1 := Next(r0, 0x3857dfd2fc37d3ba, 0xa6af4e9c9f807e51);
    OneRound(h, i, 4, k, w, r0, 0x3857dfd2fc37d3ba, 0xa6af4e9c9f807e51);
    var r2 := Next(r1, 0xcfcd928c5424e2b6, 0x09aee5bda1644de5);
    OneRound(h, i, 5, k, w, r1, 0xcfcd928c5424e2b6, 0x09aee5bda1644de5);
    var r3 := Next(r2, 0xa81dedbb9f19e643, 0x84058865d60a05fa);
    OneRound(h, i, 6, k, w, r2, 0xa81dedbb9f19e643, 0x84058865d60a05fa);
    var r4 := Next(r3, 0xab44e86276478d85, 0xcd881ee59ca6bc53);
    OneRound(h, i, 7, k, w, r3, 0xab44e86276478d85, 0xcd881ee59ca6bc53);
  }

  lemma Rounds16(h: Regs, i: nat)
    requires Reached(h, 8 * i, At16()) && i < 10
    requires Follow(Block(), 8 * i, W8()) && KRow(i) == K8()
    ensures Reached(h, 8 * i + 4, At17())
  {
    hide Reached, Follow, KRow, Block;
    var k, w, r0 := K8(), W8(), At16();
    var r1 := Next(r0, 0x5a806d7e9821a501, 0xaa84b086688a5c45);
    OneRound(h, i, 0, k, w, r0, 0x5a806d7e9821a501, 0xaa84b086688a5c45);
    var r2 := Next(r1, 0xeeb9c21bb0102598, 0x3b5fed0d6a1f96e1);
    OneRound(h, i, 1, k, w, r1, 0xeeb9c21bb0102598, 0x3b5fed0d6a1f96e1);
    var r3 := Next(r2, 0x46c4210ab2cc155d, 0x29fab5a7bff53366);
    OneRound(h, i, 2, k, w, r2, 0x46c4210ab2cc155d, 0x29fab5a7bff53366);
    var r4 := Next(r3, 0x54ba35cf56a0340e, 0x1c66f46d95690bcf);
    OneRound(h, i, 3, k, w, r3, 0x54ba35cf56a0340e, 0x1c66f46d95690bcf);
  }

  lemma Rounds17(h: Regs, i: nat)
    requires Reached(h, 8 * i + 4, At17()) && i < 10
    requires Follow(Block(), 8 * i, W8()) && KRow(i) == K8()
    ensures Reached(h, 8 * i + 8, At18())
  {
    hide Reached, Follow, KRow, Block;
    var k, w, r0 := K8(), W8(), At17();
    var r1 := Next(r0, 0x181839d609c79748, 0x0ada78ba2d446140);
    OneRound(h, i, 4, k, w, r0, 0x181839d609c79748, 0x0ada78ba2d446140);
    var r2 := Next(r1, 0xfb6aaae5d0b6a447, 0xe3711cb6564d112d);
    OneRound(h, i, 5, k, w, r1, 0xfb6aaae5d0b6a447, 0xe3711cb6564d112d);
    var r3 := Next(r2, 0x7652c579cb60f19c, 0xaff62c9665ff80fa);
    OneRound(h, i, 6, k, w, r2, 0x7652c579cb60f19c, 0xaff62c9665ff80fa);
    var r4 := Next(r3, 0xf15e9664b2803575, 0x947c3dfafee570ef);
    OneRound(h, i, 7, k, w, r3, 0xf15e9664b2803575, 0x947c3dfafee570ef);
  }

  lemma Rounds18(h: Regs, i: nat)
    requires Reached(h, 8 * i, At18()) && i < 10
    requires Follow(Block(), 8 * i, W9()) && KRow(i) == K9()
    ensures Reached(h, 8 * i + 4, At19())
  {
    hide Reached, Follow, KRow, Block;
    var k, w, r0 := K9(), W9(), At18();
    var r1 := Next(r0, 0x358406d165aee9ab, 0x8c7b5fd91a794ca0);
    OneRound(h, i, 0, k, w, r0, 0x358406d165aee9ab, 0x8c7b5fd91a794ca0);
    var r2 := Next(r1, 0x20878dcd29cdfaf5, 0x054d3536539948d0);
    OneRound(h, i, 1, k, w, r1, 0x20878dcd29cdfaf5, 0x054d3536539948d0);
    var r3 := Next(r2, 0x33d48dabb5521de2, 0x2ba18245b50de4cf);
    OneRound(h, i, 2, k, w, r2, 0x33d48dabb5521de2, 0x2ba18245b50de4cf);
    var r4 := Next(r3, 0xc8960e6be864b916, 0x995019a6ff3ba3de);
    OneRound(h, i, 3, k, w, r3, 0xc8960e6be864b916, 0x995019a6ff3ba3de);
  }

  lemma Rounds19(h: Regs, i: nat)
    requires Reached(h, 8 * i + 4, At19()) && i < 10
    requires Follow(Block(), 8 * i, W9()) && KRow(i) == K9()
    ensures Reached(h, 8 * i + 8, At20())
  {
    hide Reached, Follow, KRow, Block;
    var k, w, r0 := K9(), W9(), At19();
    var r1 := Next(r0, 0x654ef9abec389ca9, 0xceb9fc3691ce8326);
    OneRound(h, i, 4, k, w, r0, 0x654ef9abec389ca9, 0xceb9fc3691ce8326);
    var r2 := Next(r1, 0xd67806db8b148677, 0x25c96a7768fb2aa3);
    OneRound(h, i, 5, k, w, r1, 0xd67806db8b148677, 0x25c96a7768fb2aa3);
    var r3 := Next(r2, 0x10d9c4c4295599f6, 0x9bb4d39778c07f9e);
    OneRound(h, i, 6, k, w, r2, 0x10d9c4c4295599f6, 0x9bb4d39778c07f9e);
    var r4 := Next(r3, 0x73a54f399fa4b1b2, 0xd08446aa79693ed7);
    OneRound(h, i, 7, k, w, r3, 0x73a54f399fa4b1b2, 0xd08446aa79693ed7);
  }

  lemma AllRounds(h: Regs, t: nat)
    requires h == InitialHash() && t == ROUNDS
    ensures Reached(h, t, At20())
  {
    hide Reached, Follow, KRow, Block, InitialHash;
    hide K0, K1, K2, K3, K4, K5, K6, K7, K8, K9;
    hide W0, W1, W2, W3, W4, W5, W6, W7, W8, W9;
    hide At1, At2, At3, At4, At5, At6, At7, At8, At9, At10;
    hide At11, At12, At13, At14, At15, At16, At17, At18, At19, At20;
    Constants();
    FirstWords();
    NoRounds(h);
    var b := Block();
    Words2(b, 0);
    Words3(b, 8);
    Words4(b, 16);
    Words5(b, 24);
    Words6(b, 32);
    Words7(b, 40);
    Words8(b, 48);
    Words9(b, 56);
    Rounds0(h, 0);
    Rounds1(h, 0);
    Rounds2(h, 1);
    Rounds3(h, 1);
    Rounds4(h, 2);
    Rounds5(h, 2);
    Rounds6(h, 3);
    Rounds7(h, 3);
    Rounds8(h, 4);
    Rounds9(h, 4);
    Rounds10(h, 5);
    Rounds11(h, 5);
    Rounds12(h, 6);
    Rounds13(h, 6);
    Rounds14(h, 7);
    Rounds15(h, 7);
    Rounds16(h, 8);
    Rounds17(h, 8);
    Rounds18(h, 9);
    Rounds19(h, 9);
  }

  // ---------------------------------------------------------------- the message

  /** The bytes of "abc". */
  const ABC: seq<byte> := [0x61, 0x62, 0x63]

  lemma OneByteField(n: nat, k: nat)
    requires n < 0x100 && k >= 1
    ensures BigEndian(n, k) == Zeros(k - 1) + [n as byte]
  {
    hide BigEndian, Zeros;
    assert n / 0x100 == 0 && n % 0x100 == n;
    FirstBytes(n, k);
    NoBytes(k - 1);
  }

  lemma FirstBytes(n: nat, k: nat)
    requires k >= 1
    ensures BigEndian(n, k) == BigEndian(n / 0x100, k - 1) + [(n % 0x100) as byte]
  {
  }

  lemma {:induction false} NoBytes(k: nat)
    ensures BigEndian(0, k) == Zeros(k)
  {
    if k > 0 {
      NoBytes(k - 1);
    }
  }

  lemma PaddedBytes()
    ensures var s := Padded(ABC);
      && |s| == BLOCK && s[0] == 0x61 && s[1] == 0x62 && s[2] == 0x63 && s[3] == 0x80 && s[127] == 0x18
      && forall i :: 4 <= i < 127 ==> s[i] == 0
  {
    hide BigEndian, Zeros;
    OneByteField(24, 16);
  }

  lemma ZeroWord()
    ensures BytesWord([0, 0, 0, 0, 0, 0, 0, 0]) == Word(0)
    ensures BytesWord([0x61, 0x62, 0x63, 0x80, 0, 0, 0, 0]) == Word(0x6162638000000000)
    ensures BytesWord([0, 0, 0, 0, 0, 0, 0, 0x18]) == Word(0x18)
  {
  }

  lemma BlockIs()
    ensures |Padded(ABC)| == BLOCK && BlockWords(Padded(ABC)) == Block()
  {
    hide Padded, BytesWord;
    PaddedBytes();
    ZeroWord();
    var s := Padded(ABC);
    assert s[0..8] == [0x61, 0x62, 0x63, 0x80, 0, 0, 0, 0];
    forall i | 1 <= i < 15 ensures s[8 * i..8 * i + 8] == [0, 0, 0, 0, 0, 0, 0, 0] {
    }
    assert s[120..128] == [0, 0, 0, 0, 0, 0, 0, 0x18];
  }

  lemma OneBlock(h: Regs, s: seq<byte>)
    requires |s| == BLOCK
    ensures Blocks(Compress, h, s, BLOCK) == Add(h, Rounds(h, BlockWords(s), ROUNDS))
  {
    hide Rounds, BlockWords;
    assert s[..BLOCK] == s && s[BLOCK..] == [];
  }

  lemma MoreWords(ws: seq<word>, w: word, more: seq<word>)
    requires more == ws + [w]
    ensures WordsBytes(more) == WordsBytes(ws) + WordBytes(w)
  {
    assert more[..|ws|] == ws;
  }

  lemma EightWords(a: word, b: word, c: word, d: word, e: word, f: word, g: word, h: word)
    ensures WordsBytes([a, b, c, d, e, f])
         == WordBytes(a) + WordBytes(b) + WordBytes(c) + WordBytes(d) + WordBytes(e) + WordBytes(f)
    ensures WordsBytes([a, b, c, d, e, f, g, h]) == WordsBytes([a, b, c, d, e, f]) + WordBytes(g) + WordBytes(h)
  {
    hide WordBytes, WordsBytes;
    NoWords();
    MoreWords([], a, [a]);
    MoreWords([a], b, [a, b]);
    MoreWords([a, b], c, [a, b, c]);
    MoreWords([a, b, c], d, [a, b, c, d]);
    MoreWords([a, b, c, d], e, [a, b, c, d, e]);
    MoreWords([a, b, c, d, e], f, [a, b, c, d, e, f]);
    MoreWords([a, b, c, d, e, f], g, [a, b, c, d, e, f, g]);
    MoreWords([a, b, c, d, e, f, g], h, [a, b, c, d, e, f, g, h]);
  }

  lemma NoWords()
    ensures WordsBytes([]) == []
  {
  }

  lemma DigestBytes()
    ensures WordBytes(Word(0xddaf35a193617aba)) ==
      [0xdd, 0xaf, 0x35, 0xa1, 0x93, 0x61, 0x7a, 0xba]
    ensures WordBytes(Word(0xcc417349ae204131)) ==
      [0xcc, 0x41, 0x73, 0x49, 0xae, 0x20, 0x41, 0x31]
    ensures WordBytes(Word(0x12e6fa4e89a97ea2)) ==
      [0x12, 0xe6, 0xfa, 0x4e, 0x89, 0xa9, 0x7e, 0xa2]
    ensures WordBytes(Word(0x0a9eeee64b55d39a)) ==
      [0x0a, 0x9e, 0xee, 0xe6, 0x4b, 0x55, 0xd3, 0x9a]
    ensures WordBytes(Word(0x2192992a274fc1a8)) ==
      [0x21, 0x92, 0x99, 0x2a, 0x27, 0x4f, 0xc1, 0xa8]
    ensures WordBytes(Word(0x36ba3c23a3feebbd)) ==
      [0x36, 0xba, 0x3c, 0x23, 0xa3, 0xfe, 0xeb, 0xbd]
    ensures WordBytes(Word(0x454d4423643ce80e)) ==
      [0x45, 0x4d, 0x44, 0x23, 0x64, 0x3c, 0xe8, 0x0e]
    ensures WordBytes(Word(0x2a9ac94fa54ca49f)) ==
      [0x2a, 0x9a, 0xc9, 0x4f, 0xa5, 0x4c, 0xa4, 0x9f]
  {
  }

  lemma Final()
    ensures Add(InitialHash(), At20()) ==
      Regs(Word(0xddaf35a193617aba), Word(0xcc417349ae204131), Word(0x12e6fa4e89a97ea2), Word(0x0a9eeee64b55d39a),
           Word(0x2192992a274fc1a8), Word(0x36ba3c23a3feebbd), Word(0x454d4423643ce80e), Word(0x2a9ac94fa54ca49f))
  {
  }

  /** The digest of "abc". */
  lemma Abc()
    ensures Hash(ABC) ==
      [0xdd, 0xaf, 0x35, 0xa1, 0x93, 0x61, 0x7a, 0xba] +
      [0xcc, 0x41, 0x73, 0x49, 0xae, 0x20, 0x41, 0x31] +
      [0x12, 0xe6, 0xfa, 0x4e, 0x89, 0xa9, 0x7e, 0xa2] +
      [0x0a, 0x9e, 0xee, 0xe6, 0x4b, 0x55, 0xd3, 0x9a] +
      [0x21, 0x92, 0x99, 0x2a, 0x27, 0x4f, 0xc1, 0xa8] +
      [0x36, 0xba, 0x3c, 0x23, 0xa3, 0xfe, 0xeb, 0xbd] +
      [0x45, 0x4d, 0x44, 0x23, 0x64, 0x3c, 0xe8, 0x0e] +
      [0x2a, 0x9a, 0xc9, 0x4f, 0xa5, 0x4c, 0xa4, 0x9f]
  {
    hide Rounds, BlockWords, Padded, Block, InitialHash, At20, WordsBytes, WordBytes;
    var h := InitialHash();
    BlockIs();
    AllRounds(h, ROUNDS);
    OneBlock(h, Padded(ABC));
    Final();
    DigestBytes();
    var r := Add(h, At20());
    EightWords(r.a, r.b, r.c, r.d, r.e, r.f, r.g, r.h);
  }
}
