/** The MD5 streaming context: MD5_Init, MD5_Update and MD5_Final, and the unrolled MD5Transform. */
module Md5Context {
  import opened Streaming
  import opened HashWords
  import opened Md5

  const WORD := 0x1_0000_0000
  const COUNT_MODULUS := 0x1_0000_0000_0000_0000
  const INT_MAX := 0x7fff_ffff

  /** The length is an int, and so is the loop index, which is compared after adding 63.  `used` bytes wait in
      the buffer. */
  predicate InInt(used: nat, len: nat)
    requires used < BLOCK
  {
    && len <= INT_MAX
    && (len >= BLOCK - used ==> BLOCK - used + (len - (BLOCK - used)) / BLOCK * BLOCK + 63 <= INT_MAX)
  }

  lemma ShortFits(used: nat, len: nat)
    requires used < BLOCK && len <= INT_MAX - 63
    ensures InInt(used, len)
  {
  }

  // ---------------------------------------------------------------- the macros

  /** The order in which the macros add up. */
  function MacroSum(a: word, f: word, x: word, ac: word): word {
    Word(a.bits + ((f.bits + x.bits) + ac.bits))
  }

  lemma SumOrder(a: word, f: word, x: word, ac: word)
    ensures MacroSum(a, f, x, ac) == Sum(a, f, x, ac)
  {
  }

  method Macro(a: word, b: word, f: word, x: word, s: nat, ac: word) returns (a': word)
    requires 0 < s < 32
    ensures a' == Mix(a, b, f, x, s, ac)
  {
    hide Plus, RotateLeft, Sum, MacroSum;
    SumOrder(a, f, x, ac);
    a' := MacroSum(a, f, x, ac);
    a' := RotateLeft(a', s);
    PlusCommutes(a', b);
    a' := Plus(a', b);
  }

  method FF(a: word, b: word, c: word, d: word, x: word, s: nat, ac: word) returns (a': word)
    requires 0 < s < 32
    ensures a' == Mix(a, b, F(b, c, d), x, s, ac)
  {
    a' := Macro(a, b, F(b, c, d), x, s, ac);
  }

  method GG(a: word, b: word, c: word, d: word, x: word, s: nat, ac: word) returns (a': word)
    requires 0 < s < 32
    ensures a' == Mix(a, b, G(b, c, d), x, s, ac)
  {
    a' := Macro(a, b, G(b, c, d), x, s, ac);
  }

  method HH(a: word, b: word, c: word, d: word, x: word, s: nat, ac: word) returns (a': word)
    requires 0 < s < 32
    ensures a' == Mix(a, b, H(b, c, d), x, s, ac)
  {
    a' := Macro(a, b, H(b, c, d), x, s, ac);
  }

  method II(a: word, b: word, c: word, d: word, x: word, s: nat, ac: word) returns (a': word)
    requires 0 < s < 32
    ensures a' == Mix(a, b, I(b, c, d), x, s, ac)
  {
    a' := Macro(a, b, I(b, c, d), x, s, ac);
  }

  /** Four steps, after which the registers have their roles back. */
  lemma FourSteps(h: Regs, block: seq<word>, t: nat)
    requires |block| == 16 && t + 4 <= STEPS
    ensures var r := Steps(h, block, t);
      var a := New(t, r.a, r.b, r.c, r.d, block);
      var d := New(t + 1, r.d, a, r.b, r.c, block);
      var c := New(t + 2, r.c, d, a, r.b, block);
      Steps(h, block, t + 4) == Regs(a, New(t + 3, r.b, c, d, a, block), c, d)
  {
    hide New, Steps;
    NextStep(h, block, t);
    NextStep(h, block, t + 1);
    NextStep(h, block, t + 2);
    NextStep(h, block, t + 3);
  }

  lemma NextStep(h: Regs, block: seq<word>, t: nat)
    requires |block| == 16 && t < STEPS
    ensures var q := Steps(h, block, t);
      Steps(h, block, t + 1) == Regs(q.d, New(t, q.a, q.b, q.c, q.d, block), q.b, q.c)
  {
    hide New;
  }

  /** The macro of step t. */
  method Call(t: nat, a: word, b: word, c: word, d: word, x: word, s: nat, ac: word) returns (a': word)
    requires 0 < s < 32
    ensures a' == Mix(a, b, Auxiliary(t, b, c, d), x, s, ac)
  {
    if t < 16 {
      a' := FF(a, b, c, d, x, s, ac);
    } else if t < 32 {
      a' := GG(a, b, c, d, x, s, ac);
    } else if t < 48 {
      a' := HH(a, b, c, d, x, s, ac);
    } else {
      a' := II(a, b, c, d, x, s, ac);
    }
  }

  /** The arguments the program gives the macros from step t on are those of the standard. */
  predicate Arguments(t: nat, x: (nat, nat, nat, nat), s: (nat, nat, nat, nat), ac: (word, word, word, word))
    requires t + 4 <= STEPS
  {
    && x == (Index(t), Index(t + 1), Index(t + 2), Index(t + 3))
    && s == (Shift(t), Shift(t + 1), Shift(t + 2), Shift(t + 3))
    && ac == (T(t), T(t + 1), T(t + 2), T(t + 3))
  }

  /** Four macro calls. */
  method Four(t: nat, init: Regs, ghost h: Regs, x: array<word>,
              k: (nat, nat, nat, nat), s: (nat, nat, nat, nat), ac: (word, word, word, word)) returns (r: Regs)
    requires t + 4 <= STEPS && t % 4 == 0 && Arguments(t, k, s, ac)
    requires x.Length == 16 && init == Steps(h, x[..], t)
    ensures r == Steps(h, x[..], t + 4)
  {
    hide T, Index, Shift, Steps, Mix, Auxiliary;
    var a, b, c, d := init.a, init.b, init.c, init.d;
    a := Call(t, a, b, c, d, x[k.0], s.0, ac.0);
    d := Call(t + 1, d, a, b, c, x[k.1], s.1, ac.1);
    c := Call(t + 2, c, d, a, b, x[k.2], s.2, ac.2);
    b := Call(t + 3, b, c, d, a, x[k.3], s.3, ac.3);
    FourSteps(h, x[..], t);
    r := Regs(a, b, c, d);
  }

  method Round1(init: Regs, ghost h: Regs, x: array<word>) returns (r: Regs)
    requires x.Length == 16 && init == Steps(h, x[..], 0)
    ensures r == Steps(h, x[..], 16)
  {
    hide Steps;
    var s := (7, 12, 17, 22);
    r := Four(0, init, h, x, (0, 1, 2, 3), s,
              (Word(0xd76aa478), Word(0xe8c7b756), Word(0x242070db), Word(0xc1bdceee)));
    r := Four(4, r, h, x, (4, 5, 6, 7), s,
              (Word(0xf57c0faf), Word(0x4787c62a), Word(0xa8304613), Word(0xfd469501)));
    r := Four(8, r, h, x, (8, 9, 10, 11), s,
              (Word(0x698098d8), Word(0x8b44f7af), Word(0xffff5bb1), Word(0x895cd7be)));
    r := Four(12, r, h, x, (12, 13, 14, 15), s,
              (Word(0x6b901122), Word(0xfd987193), Word(0xa679438e), Word(0x49b40821)));
  }

  method Round2(init: Regs, ghost h: Regs, x: array<word>) returns (r: Regs)
    requires x.Length == 16 && init == Steps(h, x[..], 16)
    ensures r == Steps(h, x[..], 32)
  {
    hide Steps;
    var s := (5, 9, 14, 20);
    r := Four(16, init, h, x, (1, 6, 11, 0), s,
              (Word(0xf61e2562), Word(0xc040b340), Word(0x265e5a51), Word(0xe9b6c7aa)));
    r := Four(20, r, h, x, (5, 10, 15, 4), s,
              (Word(0xd62f105d), Word(0x02441453), Word(0xd8a1e681), Word(0xe7d3fbc8)));
    r := Four(24, r, h, x, (9, 14, 3, 8), s,
              (Word(0x21e1cde6), Word(0xc33707d6), Word(0xf4d50d87), Word(0x455a14ed)));
    r := Four(28, r, h, x, (13, 2, 7, 12), s,
              (Word(0xa9e3e905), Word(0xfcefa3f8), Word(0x676f02d9), Word(0x8d2a4c8a)));
  }

  method Round3(init: Regs, ghost h: Regs, x: array<word>) returns (r: Regs)
    requires x.Length == 16 && init == Steps(h, x[..], 32)
    ensures r == Steps(h, x[..], 48)
  {
    hide Steps;
    var s := (4, 11, 16, 23);
    r := Four(32, init, h, x, (5, 8, 11, 14), s,
              (Word(0xfffa3942), Word(0x8771f681), Word(0x6d9d6122), Word(0xfde5380c)));
    r := Four(36, r, h, x, (1, 4, 7, 10), s,
              (Word(0xa4beea44), Word(0x4bdecfa9), Word(0xf6bb4b60), Word(0xbebfbc70)));
    r := Four(40, r, h, x, (13, 0, 3, 6), s,
              (Word(0x289b7ec6), Word(0xeaa127fa), Word(0xd4ef3085), Word(0x04881d05)));
    r := Four(44, r, h, x, (9, 12, 15, 2), s,
              (Word(0xd9d4d039), Word(0xe6db99e5), Word(0x1fa27cf8), Word(0xc4ac5665)));
  }

  method Round4(init: Regs, ghost h: Regs, x: array<word>) returns (r: Regs)
    requires x.Length == 16 && init == Steps(h, x[..], 48)
    ensures r == Steps(h, x[..], 64)
  {
    hide Steps;
    var s := (6, 10, 15, 21);
    r := Four(48, init, h, x, (0, 7, 14, 5), s,
              (Word(0xf4292244), Word(0x432aff97), Word(0xab9423a7), Word(0xfc93a039)));
    r := Four(52, r, h, x, (12, 3, 10, 1), s,
              (Word(0x655b59c3), Word(0x8f0ccc92), Word(0xffeff47d), Word(0x85845dd1)));
    r := Four(56, r, h, x, (8, 15, 6, 13), s,
              (Word(0x6fa87e4f), Word(0xfe2ce6e0), Word(0xa3014314), Word(0x4e0811a1)));
    r := Four(60, r, h, x, (4, 11, 2, 9), s,
              (Word(0xf7537e82), Word(0xbd3af235), Word(0x2ad7d2bb), Word(0xeb86d391)));
  }

  // ---------------------------------------------------------------- bytes and numbers

  lemma LittleEndianSplit(n: nat, k: nat, m: nat)
    ensures LittleEndian(n, k + m) == LittleEndian(n, k) + LittleEndian(Shifted(n, k), m)
  {
  }

  /** n without its k low bytes. */
  function Shifted(n: nat, k: nat): nat {
    if k == 0 then n else Shifted(n / 0x100, k - 1)
  }

  lemma {:induction false} LowBytes(n: nat, high: nat, k: nat)
    ensures LittleEndian(n + Power(k) * high, k) == LittleEndian(n, k)
    decreases k
  {
    if k > 0 {
      var p := Power(k - 1);
      assert n + Power(k) * high == n + 0x100 * (p * high);
      CarryFree(n, p * high);
      LowBytes(n / 0x100, high, k - 1);
    }
  }

  lemma {:induction false} ShiftedHigh(n: nat, high: nat, k: nat)
    requires n < Power(k)
    ensures Shifted(n + Power(k) * high, k) == high
    decreases k
  {
    if k > 0 {
      var p := Power(k - 1);
      assert n + Power(k) * high == n + 0x100 * (p * high);
      CarryFree(n, p * high);
      ShiftedHigh(n / 0x100, high, k - 1);
    }
  }

  /** Both count words as bytes are the bit count as bytes. */
  lemma CountBytes(low: nat, high: nat)
    requires low < WORD
    ensures LittleEndian(low, 4) + LittleEndian(high, 4) == LittleEndian(low + WORD * high, 8)
  {
    var n := low + WORD * high;
    LittleEndianSplit(n, 4, 4);
    assert Power(4) == WORD;
    LowBytes(low, high, 4);
    ShiftedHigh(low, high, 4);
  }

  lemma EighthPart(n: nat)
    ensures 8 * n / WORD == n / 0x2000_0000
  {
    var q, r := n / 0x2000_0000, n % 0x2000_0000;
    assert 8 * n == WORD * q + 8 * r;
  }

  /** The bit count after n bytes more, in two words with a carry. */
  lemma CountCarries(low: nat, high: nat, n: nat)
    requires low < WORD && high < WORD
    ensures var add := 8 * n % WORD;
      var low' := (low + add) % WORD;
      var high' := ((if low' < add then (high + 1) % WORD else high) + n / 0x2000_0000) % WORD;
      low' + WORD * high' == (low + WORD * high + 8 * n) % COUNT_MODULUS
  {
    EighthPart(n);
    var add, top := 8 * n % WORD, 8 * n / WORD;
    var low' := (low + add) % WORD;
    var carry := AddCarries(low, add);
    var sum := high + carry + top;
    assert 8 * n == WORD * top + add;
    assert low + WORD * high + 8 * n == low' + WORD * sum;
    TwoWords(low', sum);
    CarryInto(high, carry, n / 0x2000_0000);
  }

  /** A sum of two words, and when it has a carry. */
  lemma AddCarries(low: nat, add: nat) returns (carry: nat)
    requires low < WORD && add < WORD
    ensures carry == if (low + add) % WORD < add then 1 else 0
    ensures low + add == (low + add) % WORD + WORD * carry
  {
    carry := if low + add >= WORD then 1 else 0;
  }

  lemma CarryInto(high: nat, carry: nat, top: nat)
    requires high < WORD && carry <= 1
    ensures ((if carry == 1 then (high + 1) % WORD else high) + top) % WORD == (high + carry + top) % WORD
  {
    if carry == 1 && high + 1 == WORD {
      ModOf(1 + top / WORD, WORD, top % WORD);
    }
  }

  lemma TwoWords(low: nat, sum: nat)
    requires low < WORD
    ensures (low + WORD * sum) % COUNT_MODULUS == low + WORD * (sum % WORD)
  {
    TopPart(low, sum, WORD);
  }

  /** The buffer position the program reads off the low count word. */
  lemma UsedSpace(n: nat, low: nat, high: nat)
    requires low + WORD * high == 8 * n % COUNT_MODULUS
    ensures low / 8 % BLOCK == n % BLOCK
  {
    var m := COUNT_MODULUS / 8;
    var q, r := n / m, n % m;
    assert 8 * n == COUNT_MODULUS * q + 8 * r;
    ModOf(q, COUNT_MODULUS, 8 * r);
    assert low == 8 * (r - WORD / 8 * high);
    MultipleOf(low / 8, WORD / 8 / BLOCK * high, BLOCK);
    MultipleOf(r, m / BLOCK * q, BLOCK);
  }

  // ---------------------------------------------------------------- the context

  lemma BlockWordAt(s: seq<byte>, i: nat)
    requires |s| == BLOCK && i < 16
    ensures BlockWords(s)[i] == Join(s[4 * i + 3], s[4 * i + 2], s[4 * i + 1], s[4 * i])
  {
    hide Join;
  }

  class Context {
    const state: array<word>
    const buffer: array<byte>
    /** The bit count, low word and high word. */
    var count0: nat
    var count1: nat
    ghost var msg: seq<byte>

    ghost predicate Shape()
      reads this
    {
      state.Length == 4 && buffer.Length == BLOCK && count0 < WORD && count1 < WORD
    }

    ghost function Chain(): Regs
      reads state
      requires state.Length == 4
    {
      Regs(state[0], state[1], state[2], state[3])
    }

    /** Registers and buffer stand for m. */
    ghost predicate Holds(m: seq<byte>)
      reads state, buffer
      requires state.Length == 4 && buffer.Length == BLOCK
    {
      Chain() == Blocks(Compress, InitialRegs(), m, BLOCK) && buffer[..|m| % BLOCK] == Tail(m, BLOCK)
    }

    /** The context has absorbed msg. */
    ghost predicate Valid()
      reads this, state, buffer
    {
      Shape() && Holds(msg) && count0 + WORD * count1 == 8 * |msg| % COUNT_MODULUS
    }

    /** MD5_Init */
    constructor ()
      ensures Valid() && msg == [] && fresh(state) && fresh(buffer)
    {
      hide Blocks, Tail;
      state := new word[4];
      buffer := new byte[BLOCK];
      count0, count1, msg := 0, 0, [];
      new;
      SetState(InitialRegs());
      BlocksOfNothing(Compress, InitialRegs(), BLOCK);
    }

    method SetState(r: Regs)
      requires state.Length == 4
      modifies state
      ensures Chain() == r
    {
      state[0] := r.a;
      state[1] := r.b;
      state[2] := r.c;
      state[3] := r.d;
    }

    ghost predicate Foreign(data: array<byte>) {
      data != buffer && (data as object) != state
    }

    /** Decode of one block. */
    method Decode(block: array<byte>, at: nat) returns (x: array<word>)
      requires at + BLOCK <= block.Length
      ensures fresh(x) && x.Length == 16 && x[..] == BlockWords(block[at..at + BLOCK])
    {
      hide Join, BlockWords;
      x := new word[16];
      ghost var s := block[at..at + BLOCK];
      var i, j := 0, 0;
      while j < BLOCK
        invariant 0 <= i <= 16 && j == 4 * i
        invariant forall k :: 0 <= k < i ==> x[k] == BlockWords(s)[k]
      {
        BlockWordAt(s, i);
        x[i] := Join(block[at + j + 3], block[at + j + 2], block[at + j + 1], block[at + j]);
        i, j := i + 1, j + 4;
      }
    }

    /** MD5Transform of the 64 bytes at block[at..]. */
    method Transform(block: array<byte>, at: nat)
      requires Shape() && at + BLOCK <= block.Length
      modifies state
      ensures Chain() == Compress(old(Chain()), old(block[at..at + BLOCK]))
    {
      hide Steps, BlockWords, Add;
      var init := Regs(state[0], state[1], state[2], state[3]);
      var x := Decode(block, at);
      var r := AllSteps(init, x);
      SetState(Add(init, r));
    }

    /** memcpy into the buffer. */
    method CopyIn(at: nat, data: array<byte>, from: nat, n: nat)
      requires at + n <= buffer.Length && from + n <= data.Length && data != buffer
      modifies buffer
      ensures buffer[..] == old(buffer[..at]) + data[from..from + n] + old(buffer[at + n..])
    {
      forall i | 0 <= i < n {
        buffer[at + i] := data[from + i];
      }
    }

    method Count(len: nat)
      requires Shape()
      modifies `count0, `count1
      ensures Shape() && count0 + WORD * count1 == (old(count0) + WORD * old(count1) + 8 * len) % COUNT_MODULUS
    {
      CountCarries(count0, count1, len);
      var add := 8 * len % WORD;
      count0 := (count0 + add) % WORD;
      if count0 < add {
        count1 := (count1 + 1) % WORD;
      }
      count1 := (count1 + len / 0x2000_0000) % WORD;
    }

    // -------------------------------------------------------------- MD5_Update

    /** The first bytes complete the pending block. */
    method Complete(data: array<byte>, from: nat, n: nat, ghost m: seq<byte>)
      requires Shape() && Holds(m) && Foreign(data) && from + n <= data.Length && |m| % BLOCK + n == BLOCK
      modifies state, buffer
      ensures Holds(m + data[from..from + n]) && |m + data[from..from + n]| % BLOCK == 0
    {
      hide Blocks, Tail, Compress;
      ghost var more := data[from..from + n];
      CopyIn(BLOCK - n, data, from, n);
      assert buffer[..] == Tail(m, BLOCK) + more;
      assert buffer[0..0 + BLOCK] == buffer[..];
      Transform(buffer, 0);
      AbsorbFill(Compress, InitialRegs(), m, more, BLOCK);
      assert Tail(m + more, BLOCK) == [];
    }

    /** A whole block straight from the data. */
    method Direct(data: array<byte>, from: nat, ghost m: seq<byte>)
      requires Shape() && Holds(m) && Foreign(data) && from + BLOCK <= data.Length && |m| % BLOCK == 0
      modifies state
      ensures Holds(m + data[from..from + BLOCK]) && |m + data[from..from + BLOCK]| % BLOCK == 0
    {
      hide Blocks, Tail, Compress;
      ghost var more := data[from..from + BLOCK];
      Transform(data, from);
      assert Tail(m, BLOCK) + more == more;
      AbsorbFill(Compress, InitialRegs(), m, more, BLOCK);
      assert Tail(m + more, BLOCK) == [];
    }

    /** What does not complete a block waits in the buffer. */
    method Keep(x: nat, data: array<byte>, from: nat, n: nat, ghost m: seq<byte>)
      requires Shape() && Holds(m) && Foreign(data) && from + n <= data.Length && x == |m| % BLOCK && x + n < BLOCK
      modifies buffer
      ensures Holds(m + data[from..from + n])
    {
      hide Blocks, Tail, Compress;
      ghost var more := data[from..from + n];
      CopyIn(x, data, from, n);
      AbsorbShort(Compress, InitialRegs(), m, more, BLOCK);
      assert buffer[..x + n] == buffer[..][..x + n] == old(buffer[..x]) + more;
    }

    /** Once the pending block is complete: it, then whole blocks straight from the data. */
    method Transforms(data: array<byte>, start: nat, len: nat, partLen: nat) returns (i: nat)
      requires Valid() && Foreign(data) && start + len <= data.Length
      requires partLen == BLOCK - |msg| % BLOCK && partLen <= len && InInt(|msg| % BLOCK, len)
      modifies state, buffer
      ensures partLen <= i <= len < i + BLOCK
      ensures Holds(msg + data[start..start + i]) && |msg + data[start..start + i]| % BLOCK == 0
    {
      hide Blocks, Tail, Compress, Holds, Chain;
      Complete(data, start, partLen, msg);
      i := partLen;
      while i + 63 < len
        invariant partLen <= i <= len && Shape() && (i - partLen) % BLOCK == 0 && i + 63 <= INT_MAX
        invariant Holds(msg + data[start..start + i]) && |msg + data[start..start + i]| % BLOCK == 0
      {
        Direct(data, start + i, msg + data[start..start + i]);
        Longer(msg, data, start, i, BLOCK);
        i := i + 64;
      }
    }

    /** MD5_Update */
    method Update(data: array<byte>, start: nat, len: nat)
      requires Valid() && Foreign(data) && start + len <= data.Length && InInt(|msg| % BLOCK, len)
      modifies this, state, buffer
      ensures Valid() && msg == old(msg) + data[start..start + len]
    {
      hide Blocks, Tail, Compress, Holds, Chain, InInt;
      var x := count0 / 8 % BLOCK;
      UsedSpace(|msg|, count0, count1);
      var partLen := BLOCK - x;
      var i := 0;
      if len >= partLen {
        i := Transforms(data, start, len, partLen);
        x := 0;
      }
      Longer(msg, data, start, i, len - i);
      NoneYet(msg, data[..], start);
      Keep(x, data, start + i, len - i, msg + data[start..start + i]);
      Count(len);
      CountAdds(|msg|, len, COUNT_MODULUS);
      msg := msg + data[start..start + len];
    }

    lemma NoneYet(m: seq<byte>, s: seq<byte>, start: nat)
      requires start <= |s|
      ensures m + s[start..start] == m
    {
    }

    lemma Longer(m: seq<byte>, s: array<byte>, start: nat, i: nat, n: nat)
      requires start + i + n <= s.Length
      ensures m + s[start..start + i] + s[start + i..start + i + n] == m + s[start..start + i + n]
    {
    }

    // -------------------------------------------------------------- MD5_Final

    /** Encode of the two count words. */
    method EncodeCount() returns (bits: array<byte>)
      requires Shape()
      ensures fresh(bits) && bits[..] == LittleEndian(count0 + WORD * count1, 8)
    {
      hide LittleEndian;
      CountBytes(count0, count1);
      bits := new byte[8];
      PutWord(bits, 0, count0);
      ghost var low := bits[0..4];
      PutWord(bits, 4, count1);
      assert bits[0..4] == low;
      assert bits[..] == bits[0..4] + bits[4..8];
    }

    method PutWord(bits: array<byte>, j: nat, c: nat)
      requires c < WORD && j + 4 <= bits.Length
      modifies bits
      ensures bits[j..j + 4] == LittleEndian(c, 4)
      ensures forall k :: 0 <= k < bits.Length && !(j <= k < j + 4) ==> bits[k] == old(bits[k])
    {
      hide LittleEndian;
      FourBytes(c);
      bits[j], bits[j + 1] := (c % 0x100) as byte, (c / 0x100 % 0x100) as byte;
      bits[j + 2], bits[j + 3] := (c / 0x1_0000 % 0x100) as byte, (c / 0x100_0000 % 0x100) as byte;
    }

    method PutStateWord(digest: array<byte>, j: nat, w: word)
      requires j + 4 <= digest.Length
      modifies digest
      ensures digest[j..j + 4] == WordBytes(w)
      ensures forall k :: 0 <= k < digest.Length && !(j <= k < j + 4) ==> digest[k] == old(digest[k])
    {
      hide Byte0, Byte1, Byte2, Byte3;
      digest[j], digest[j + 1], digest[j + 2], digest[j + 3] := Byte0(w), Byte1(w), Byte2(w), Byte3(w);
    }

    /** Encode of the state. */
    method EncodeState(digest: array<byte>)
      requires state.Length == 4 && digest.Length >= 16 && Foreign(digest)
      modifies digest
      ensures digest[..] == Output(Chain()) + old(digest[16..])
    {
      hide Output, WordBytes;
      ghost var out, rest := Output(Chain()), digest[16..];
      OutputAt(Chain(), 0);
      var i, j := 0, 0;
      while j < 16
        invariant 0 <= i <= 4 && j == 4 * i
        invariant digest[..j] == out[..j] && digest[16..] == rest
      {
        OutputAt(Chain(), i);
        PutStateWord(digest, j, state[i]);
        assert out[..j + 4] == out[..j] + out[j..j + 4];
        assert digest[..j + 4] == digest[..j] + digest[j..j + 4];
        i, j := i + 1, j + 4;
      }
      assert out[..16] == out;
      assert digest[..] == digest[..16] + digest[16..];
    }

    /** Padding and bit count are absorbed like any data. */
    method Finish()
      requires Valid()
      modifies this, state, buffer
      ensures Valid() && msg == Padded(old(msg))
    {
      hide Blocks, Tail, Compress, Holds, Chain, LittleEndian, Pad;
      var bits := EncodeCount();
      var x := count0 / 8 % BLOCK;
      UsedSpace(|msg|, count0, count1);
      var padLen := if x < 56 then 56 - x else 120 - x;
      var padding := new byte[64](i => if i == 0 then 0x80 else 0);
      PaddingIs(msg, padding[..padLen], bits[..]);
      assert padding[0..0 + padLen] == padding[..padLen];
      assert bits[0..0 + 8] == bits[..];
      ShortFits(|msg| % BLOCK, padLen);
      Update(padding, 0, padLen);
      ShortFits(|msg| % BLOCK, 8);
      Update(bits, 0, 8);
    }

    /** MD5_Final: after the padding the state is the digest. */
    method Final(digest: array<byte>)
      requires Valid() && digest.Length >= 16 && Foreign(digest)
      modifies this, state, buffer, digest
      ensures digest[..] == Digest(old(msg)) + old(digest[16..])
    {
      hide Blocks, Tail, Compress, Holds, Chain, Output, Padded;
      Finish();
      StateIsDigest();
      EncodeState(digest);
    }

    lemma StateIsDigest()
      requires Valid()
      ensures Chain() == Blocks(Compress, InitialRegs(), msg, BLOCK)
    {
    }
  }

  lemma FirstByte(n: nat, k: nat)
    ensures LittleEndian(n, k + 1) == [(n % 0x100) as byte] + LittleEndian(n / 0x100, k)
    ensures LittleEndian(n, 0) == []
  {
  }

  lemma FourBytes(n: nat)
    requires n < WORD
    ensures LittleEndian(n, 4) ==
      [(n % 0x100) as byte, (n / 0x100 % 0x100) as byte, (n / 0x1_0000 % 0x100) as byte,
       (n / 0x100_0000 % 0x100) as byte]
  {
    hide LittleEndian;
    FirstByte(n, 3);
    FirstByte(n / 0x100, 2);
    FirstByte(n / 0x1_0000, 1);
    FirstByte(n / 0x100_0000, 0);
    FirstByte(n / 0x1_0000_0000, 0);
    assert n / 0x100 / 0x100 == n / 0x1_0000 && n / 0x1_0000 / 0x100 == n / 0x100_0000;
  }

  lemma OutputAt(r: Regs, i: nat)
    requires i < 4
    ensures |Output(r)| == 16
    ensures Output(r)[4 * i..4 * i + 4] ==
      WordBytes(if i == 0 then r.a else if i == 1 then r.b else if i == 2 then r.c else r.d)
  {
    hide Byte0, Byte1, Byte2, Byte3;
  }

  /** The program's padding array, as far as it is used, is that of the standard. */
  lemma PaddingIs(m: seq<byte>, pad: seq<byte>, bits: seq<byte>)
    requires |bits| == 8 && |pad| == if |m| % BLOCK < 56 then 56 - |m| % BLOCK else 120 - |m| % BLOCK
    requires forall i :: 0 <= i < |pad| ==> pad[i] == if i == 0 then 0x80 else 0
    ensures Pad(m, BLOCK, bits) == m + pad + bits
  {
    assert [0x80] + Zeros(|pad| - 1) == pad;
    assert m + [0x80] + Zeros(|pad| - 1) == m + pad;
  }

  /** Streaming equals one shot: however the message is cut into Update calls, Final yields its digest. */
  method Streamed(chunks: seq<seq<byte>>) returns (digest: array<byte>)
    requires forall i :: 0 <= i < |chunks| ==> InInt(|Concat(chunks[..i])| % BLOCK, |chunks[i]|)
    ensures digest[..] == Digest(Concat(chunks))
  {
    hide Digest, InInt;
    var ctx := new Context();
    var i := 0;
    while i < |chunks|
      invariant 0 <= i <= |chunks|
      invariant ctx.Valid() && ctx.msg == Concat(chunks[..i])
      invariant fresh(ctx) && fresh(ctx.state) && fresh(ctx.buffer)
    {
      var chunk := chunks[i];
      var data := new byte[|chunk|](k requires 0 <= k < |chunk| => chunk[k]);
      assert data[0..0 + |chunk|] == chunk;
      ctx.Update(data, 0, |chunk|);
      ConcatAppend(chunks[..i], chunk);
      assert chunks[..i + 1] == chunks[..i] + [chunk];
      i := i + 1;
    }
    assert chunks[..i] == chunks;
    digest := new byte[16];
    ctx.Final(digest);
  }

  /** MD5Transform between decoding and adding: 64 unrolled steps. */
  method AllSteps(init: Regs, x: array<word>) returns (r: Regs)
    requires x.Length == 16
    ensures r == Steps(init, x[..], STEPS)
  {
    hide Steps;
    StepsNone(init, x[..]);
    r := init;
    r := Round1(r, init, x);
    r := Round2(r, init, x);
    r := Round3(r, init, x);
    r := Round4(r, init, x);
  }

  lemma StepsNone(h: Regs, block: seq<word>)
    requires |block| == 16
    ensures Steps(h, block, 0) == h
  {
  }
}
