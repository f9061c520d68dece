/** The SHA-512 streaming context, which also computes SHA-384: 128 buffer bytes that are both pending
    input and the ring of sixteen words, and a bit count in two 64-bit words. */
module Sha512Context {
  import opened Streaming
  import opened Sha512

  const WORD := 0x1_0000_0000_0000_0000
  const COUNT_MODULUS := 0x1_0000_0000_0000_0000_0000_0000_0000_0000

  /** One round of the program, on its eight registers. */
  method Step(r: Regs, k: word, w: word) returns (r': Regs)
    ensures r' == Round(r, k, w)
  {
    hide Plus, Ch, Maj, BigSigma0, BigSigma1, MacroBig0, MacroBig1;
    var a, b, c, d, e, f, g, h := r.a, r.b, r.c, r.d, r.e, r.f, r.g, r.h;
    Macros(e);
    Macros(a);
    var t1 := Plus(Plus(Plus(Plus(h, MacroBig1(e)), Ch(e, f, g)), k), w);
    var t2 := Plus(MacroBig0(a), Maj(a, b, c));
    h := g;
    g := f;
    f := e;
    e := Plus(d, t1);
    d := c;
    c := b;
    b := a;
    a := Plus(t1, t2);
    r' := Regs(a, b, c, d, e, f, g, h);
  }

  /** The in-place update of a ring word: W[j & 15] += s1 + W[(j + 9) & 15] + s0. */
  lemma ExpandInPlace(w16: word, w15: word, w7: word, w2: word)
    ensures Plus(w16, Plus(Plus(MacroSmall1(w2), w7), MacroSmall0(w15))) == Expand(w16, w15, w7, w2)
  {
    hide Plus, SmallSigma0, SmallSigma1, MacroSmall0, MacroSmall1;
    Macros(w2);
    Macros(w15);
    PlusCommutes(w16, Plus(Plus(MacroSmall1(w2), w7), MacroSmall0(w15)));
  }

  lemma RoundsStart(r: Regs, block: seq<word>)
    requires |block| == 16
    ensures Rounds(r, block, 0) == r
  {
  }

  lemma RoundsNext(r: Regs, block: seq<word>, t: nat)
    requires |block| == 16 && t < ROUNDS
    ensures Rounds(r, block, t + 1) == Round(Rounds(r, block, t), K(t), Schedule(block, t))
  {
    hide Round, K, Schedule;
  }

  lemma ScheduleStart(block: seq<word>, t: nat)
    requires |block| == 16 && t < 16
    ensures Schedule(block, t) == block[t]
  {
  }

  lemma ScheduleNext(block: seq<word>, t: nat)
    requires |block| == 16 && t >= 16
    ensures Schedule(block, t) ==
      Expand(Schedule(block, t - 16), Schedule(block, t - 15), Schedule(block, t - 7), Schedule(block, t - 2))
  {
    hide Expand;
  }

  /** The buffer position the program reads off its low count word. */
  lemma UsedSpace(n: nat, low: nat, high: nat)
    requires low + WORD * high == 8 * n % COUNT_MODULUS
    ensures low / 8 % BLOCK == n % BLOCK
  {
    var m := COUNT_MODULUS / 8;
    var q, r := n / m, n % m;
    assert 8 * n == COUNT_MODULUS * q + 8 * r;
    ModOf(q, COUNT_MODULUS, 8 * r);
    assert low == 8 * (r - WORD / 8 * high);
    MultipleOf(low / 8, WORD / 8 / BLOCK * high, BLOCK);
    MultipleOf(r, m / BLOCK * q, BLOCK);
  }

  /** ADDINC128: the bit count after n bits more, in two words with a carry. */
  lemma CountCarries(low: nat, high: nat, n: nat)
    requires low < WORD && high < WORD && n < WORD
    ensures var low' := (low + n) % WORD;
      var high' := if low' < n then (high + 1) % WORD else high;
      low' + WORD * high' == (low + WORD * high + n) % COUNT_MODULUS
  {
    var low' := (low + n) % WORD;
    var carry := if low + n >= WORD then 1 else 0;
    assert low' == low + n - WORD * carry;
    var sum := high + carry;
    assert low + WORD * high + n == low' + WORD * sum;
    TopPart(low', sum, WORD);
  }

  // ---------------------------------------------------------------- the length field

  /** The high bytes stand in front of the low ones. */
  lemma {:induction false} BigEndianParts(low: nat, high: nat, k: nat, m: nat)
    requires low < Power(k)
    ensures BigEndian(low + Power(k) * high, m + k) == BigEndian(high, m) + BigEndian(low, k)
    decreases k
  {
    if k == 0 {
      assert BigEndian(high, m) + [] == BigEndian(high, m);
    } else {
      var p := Power(k - 1);
      var n := low + Power(k) * high;
      assert n == low + 0x100 * (p * high);
      CarryFree(low, p * high);
      BigEndianParts(low / 0x100, high, k - 1, m);
      var last := [(low % 0x100) as byte];
      assert BigEndian(high, m) + BigEndian(low / 0x100, k - 1) + last == BigEndian(high, m) + BigEndian(low, k);
    }
  }

  /** Both count words, converted and stored one after the other, are the 128-bit bit count. */
  lemma CountField(low: nat, high: nat, bigEndian: bool)
    requires low < WORD
    ensures HostImage(Htobe64(high, bigEndian), bigEndian) + HostImage(Htobe64(low, bigEndian), bigEndian)
         == BigEndian(low + WORD * high, 16)
  {
    hide BigEndian, HostImage, Htobe64;
    HtobeImage(low, bigEndian);
    HtobeImage(high, bigEndian);
    PowerOfEight();
    BigEndianParts(low, high, 8, 8);
  }

  /** The last block of the padded message. */
  function FinalBlock(msg: seq<byte>): seq<byte> {
    var used := |msg| % BLOCK;
    (if used + 17 <= BLOCK then Tail(msg, BLOCK) + [0x80] + Zeros(BLOCK - 17 - used) else Zeros(BLOCK - 16))
    + BigEndian(8 * |msg| % COUNT_MODULUS, 16)
  }

  /** Hashing the padded message: one block more, or two. */
  lemma PaddedBlocks(iv: Regs, msg: seq<byte>)
    ensures var used, chain := |msg| % BLOCK, Blocks(Compress, iv, msg, BLOCK);
      Blocks(Compress, iv, Padded(msg), BLOCK)
      == if used + 17 <= BLOCK then Compress(chain, FinalBlock(msg))
         else Compress(Compress(chain, Tail(msg, BLOCK) + [0x80] + Zeros(BLOCK - 1 - used)), FinalBlock(msg))
  {
    hide Blocks, Tail, Compress, Zeros, Pad, BigEndian;
    var field := BigEndian(8 * |msg| % COUNT_MODULUS, 16);
    if |msg| % BLOCK + 17 <= BLOCK {
      PadOneBlock(Compress, iv, msg, BLOCK, field);
    } else {
      PadTwoBlocks(Compress, iv, msg, BLOCK, field);
    }
  }

  lemma ConvertedCount(n: nat, bigEndian: bool)
    requires n < WORD
    ensures Htobe64(n, bigEndian) < WORD
  {
    hide Htobe64, Power;
    PowerOfEight();
    HtobeImage(n, bigEndian);
  }

  /** The state words with the first n in big-endian order. */
  function Converted(ws: seq<word>, n: nat, bigEndian: bool): (s: seq<word>)
    ensures |s| == |ws|
  {
    seq(|ws|, i requires 0 <= i < |ws| => if i < n then ToBigEndian(ws[i], bigEndian) else ws[i])
  }

  lemma ConvertedNone(ws: seq<word>, bigEndian: bool)
    ensures Converted(ws, 0, bigEndian) == ws
  {
  }

  lemma ConvertedOne(ws: seq<word>, j: nat, bigEndian: bool)
    requires j < |ws|
    ensures Converted(ws, j, bigEndian)[j] == ws[j]
    ensures Converted(ws, j + 1, bigEndian) == Converted(ws, j, bigEndian)[j := ToBigEndian(ws[j], bigEndian)]
  {
    hide ToBigEndian;
  }

  lemma SameEnd(s: seq<byte>, t: seq<byte>, a: nat, c: nat)
    requires a <= c <= |s| == |t| && s[a..] == t[a..]
    ensures s[c..] == t[c..]
  {
    assert s[c..] == s[a..][c - a..];
    assert t[c..] == t[a..][c - a..];
  }

  lemma NoBytes()
    ensures WordsBytes([]) == []
  {
  }

  lemma MoreBytes(ws: seq<word>, j: nat)
    requires j < |ws|
    ensures WordsBytes(ws[..j + 1]) == WordsBytes(ws[..j]) + WordBytes(ws[j])
  {
    hide WordBytes;
    assert ws[..j + 1][..j] == ws[..j];
  }

  class Context {
    const bigEndian: bool
    const state: array<word>
    const buffer: array<byte>
    /** The bit count, low word and high word. */
    var bitcount0: nat
    var bitcount1: nat
    ghost var msg: seq<byte>
    ghost var iv: Regs

    /** The shape of the struct. */
    ghost predicate Shape()
      reads this
    {
      state.Length == 8 && buffer.Length == BLOCK && bitcount0 < WORD && bitcount1 < WORD
    }

    ghost function Bits(): nat
      reads `bitcount0, `bitcount1
    {
      bitcount0 + WORD * bitcount1
    }

    ghost function Chain(): Regs
      reads state
      requires state.Length == 8
    {
      Regs(state[0], state[1], state[2], state[3], state[4], state[5], state[6], state[7])
    }

    /** Started from chaining value iv, the context has absorbed msg. */
    ghost predicate Valid()
      reads this, state, buffer
    {
      && Shape()
      && Chain() == Blocks(Compress, iv, msg, BLOCK)
      && buffer[..|msg| % BLOCK] == Tail(msg, BLOCK)
      && Bits() == 8 * |msg| % COUNT_MODULUS
    }

    constructor (bigEndian: bool)
      ensures Valid() && msg == [] && iv == InitialHash()
      ensures fresh(state) && fresh(buffer) && this.bigEndian == bigEndian
    {
      this.bigEndian := bigEndian;
      state := new word[8];
      buffer := new byte[BLOCK];
      bitcount0, bitcount1, msg := 0, 0, [];
      new;
      Init();
    }

    method SetState(h: Regs)
      requires state.Length == 8
      modifies state
      ensures Chain() == h
    {
      state[0] := h.a;
      state[1] := h.b;
      state[2] := h.c;
      state[3] := h.d;
      state[4] := h.e;
      state[5] := h.f;
      state[6] := h.g;
      state[7] := h.h;
    }

    /** Start over from chaining value h. */
    method Start(h: Regs)
      requires state.Length == 8 && buffer.Length == BLOCK
      modifies this, state, buffer
      ensures Valid() && msg == [] && iv == h
    {
      hide Blocks, Tail;
      SetState(h);
      forall i | 0 <= i < BLOCK {
        buffer[i] := 0;
      }
      bitcount0, bitcount1, msg, iv := 0, 0, [], h;
      BlocksOfNothing(Compress, h, BLOCK);
    }

    /** SHA512_Init. */
    method Init()
      requires state.Length == 8 && buffer.Length == BLOCK
      modifies this, state, buffer
      ensures Valid() && msg == [] && iv == InitialHash()
    {
      Start(InitialHash());
    }

    // -------------------------------------------------------------- the buffer as a ring of words

    ghost function W(j: nat): word
      reads buffer
      requires buffer.Length == BLOCK && j < 16
    {
      Loaded(buffer[8 * j..8 * j + 8], bigEndian)
    }

    method GetW(j: nat) returns (w: word)
      requires buffer.Length == BLOCK && j < 16
      ensures w == W(j)
    {
      w := Loaded(buffer[8 * j..8 * j + 8], bigEndian);
    }

    method SetW(j: nat, w: word)
      requires buffer.Length == BLOCK && j < 16
      modifies buffer
      ensures W(j) == w
      ensures forall i :: 0 <= i < 16 && i != j ==> W(i) == old(W(i))
      ensures forall i :: 0 <= i < BLOCK && !(8 * j <= i < 8 * j + 8) ==> buffer[i] == old(buffer[i])
    {
      var s := Stored(w, bigEndian);
      forall i | 0 <= i < 8 {
        buffer[8 * j + i] := s[i];
      }
      assert buffer[8 * j..8 * j + 8] == s;
      LoadStored(w, bigEndian);
      forall i | 0 <= i < 16 && i != j ensures W(i) == old(W(i)) {
        assert buffer[8 * i..8 * i + 8] == old(buffer[8 * i..8 * i + 8]);
      }
    }

    // -------------------------------------------------------------- SHA512_Transform

    /** The ring holds schedule words lo up to hi, each in its place modulo 16. */
    ghost predicate Ring(block: seq<word>, lo: nat, hi: nat)
      reads buffer
      requires buffer.Length == BLOCK && |block| == 16
    {
      forall i: nat :: lo <= i < hi ==> W(i % 16) == Schedule(block, i)
    }

    /** Put the next word in its place; it overwrites nothing newer than word j - 16. */
    method PutNext(ghost block: seq<word>, ghost lo: nat, j: nat, w: word)
      requires buffer.Length == BLOCK && |block| == 16
      requires j - 15 <= lo <= j && Ring(block, lo, j) && w == Schedule(block, j)
      modifies buffer
      ensures Ring(block, lo, j + 1)
      ensures forall i :: 0 <= i < BLOCK && !(8 * (j % 16) <= i < 8 * (j % 16) + 8) ==> buffer[i] == old(buffer[i])
    {
      hide Schedule, Loaded;
      SetW(j % 16, w);
      forall i: nat | lo <= i < j ensures W(i % 16) == Schedule(block, i) {
        RingPlaces(i, j);
        assert old(W(i % 16)) == Schedule(block, i);
      }
    }

    /** The first sixteen rounds copy the block into the ring, in host byte order. */
    method CopyRounds(src: array<byte>, at: nat, init: Regs) returns (r: Regs)
      requires Shape() && at + BLOCK <= src.Length
      requires src == buffer ==> at == 0
      modifies buffer
      ensures Ring(BlockWords(old(src[at..at + BLOCK])), 0, 16)
      ensures r == Rounds(init, BlockWords(old(src[at..at + BLOCK])), 16)
    {
      hide K, Loaded, ToBigEndian, BytesWord, Round, Rounds, Schedule;
      ghost var bytes := src[at..at + BLOCK];
      ghost var block := BlockWords(bytes);
      r := init;
      RoundsStart(init, block);
      var j := 0;
      while j < 16
        invariant 0 <= j <= 16
        invariant forall i :: 8 * j <= i < BLOCK ==> src[at + i] == bytes[i]
        invariant Ring(block, 0, j)
        invariant r == Rounds(init, block, j)
      {
        assert src[at + 8 * j..at + 8 * j + 8] == bytes[8 * j..8 * j + 8];
        LoadBigEndian(bytes[8 * j..8 * j + 8], bigEndian);
        var w := ToBigEndian(Loaded(src[at + 8 * j..at + 8 * j + 8], bigEndian), bigEndian);
        ScheduleStart(block, j);
        PutNext(block, 0, j, w);
        RoundsNext(init, block, j);
        r := Step(r, K(j), w);
        j := j + 1;
      }
    }

    /** Word t of the schedule takes the place of word t - 16. */
    method ExpandWord(ghost block: seq<word>, j: nat) returns (w: word)
      requires Shape() && |block| == 16 && 16 <= j
      requires Ring(block, j - 16, j)
      modifies buffer
      ensures w == Schedule(block, j)
      ensures Ring(block, j - 15, j + 1)
    {
      hide Schedule, Plus, Expand, MacroSmall0, MacroSmall1, Loaded;
      var s0 := GetW((j + 1) % 16);
      var s1 := GetW((j + 14) % 16);
      var w7 := GetW((j + 9) % 16);
      w := GetW(j % 16);
      RingIndices(j);
      ExpandInPlace(w, s0, w7, s1);
      ScheduleNext(block, j);
      w := Plus(w, Plus(Plus(MacroSmall1(s1), w7), MacroSmall0(s0)));
      PutNext(block, j - 15, j, w);
    }

    /** The other rounds expand the schedule inside the ring. */
    method RingRounds(ghost block: seq<word>, ghost init: Regs, start: Regs) returns (r: Regs)
      requires Shape() && |block| == 16 && start == Rounds(init, block, 16)
      requires Ring(block, 0, 16)
      modifies buffer
      ensures r == Rounds(init, block, ROUNDS) && Ring(block, ROUNDS - 16, ROUNDS)
    {
      hide K, Schedule, Loaded, Round, Rounds;
      r := start;
      var j := 16;
      while j < ROUNDS
        invariant 16 <= j <= ROUNDS
        invariant Ring(block, j - 16, j)
        invariant r == Rounds(init, block, j)
      {
        var w := ExpandWord(block, j);
        RoundsNext(init, block, j);
        r := Step(r, K(j), w);
        j := j + 1;
      }
    }

    /** One compression of the 128 bytes at src[at..]; the last sixteen schedule words stay in the buffer. */
    method Transform(src: array<byte>, at: nat)
      requires Shape() && at + BLOCK <= src.Length
      requires src == buffer ==> at == 0
      modifies state, buffer
      ensures Chain() == Compress(old(Chain()), old(src[at..at + BLOCK]))
      ensures Ring(BlockWords(old(src[at..at + BLOCK])), ROUNDS - 16, ROUNDS)
    {
      hide Add, Rounds, Schedule, BlockWords;
      ghost var block := BlockWords(src[at..at + BLOCK]);
      var init := Regs(state[0], state[1], state[2], state[3], state[4], state[5], state[6], state[7]);
      var r := CopyRounds(src, at, init);
      r := RingRounds(block, init, r);
      SetState(Add(init, r));
    }

    /** SHA512_Transform on the context's own buffer. */
    method TransformBuffer()
      requires Shape()
      modifies state, buffer
      ensures Chain() == Compress(old(Chain()), old(buffer[..]))
      ensures Ring(BlockWords(old(buffer[..])), ROUNDS - 16, ROUNDS)
    {
      hide Compress;
      assert buffer[0..0 + BLOCK] == buffer[..];
      Transform(buffer, 0);
    }

    // -------------------------------------------------------------- SHA512_Update

    /** The caller's data does not overlap the context. */
    ghost predicate Foreign(data: array<byte>) {
      data != buffer && (data as object) != state
    }

    /** memcpy into the buffer. */
    method CopyIn(at: nat, data: array<byte>, from: nat, n: nat)
      requires at + n <= buffer.Length && from + n <= data.Length && data != buffer
      modifies buffer
      ensures buffer[..] == old(buffer[..at]) + data[from..from + n] + old(buffer[at + n..])
    {
      forall i | 0 <= i < n {
        buffer[at + i] := data[from + i];
      }
    }

    /** ADDINC128 */
    method Count(n: nat)
      requires Shape() && 8 * n < WORD
      modifies `bitcount0, `bitcount1
      ensures Shape() && Bits() == (old(Bits()) + 8 * n) % COUNT_MODULUS
    {
      CountCarries(bitcount0, bitcount1, 8 * n);
      bitcount0 := (bitcount0 + 8 * n) % WORD;
      if bitcount0 < 8 * n {
        bitcount1 := (bitcount1 + 1) % WORD;
      }
    }

    /** Data that leaves the block incomplete. */
    method Keep(data: array<byte>, from: nat, n: nat)
      requires Valid() && Foreign(data) && from + n <= data.Length && |msg| % BLOCK + n < BLOCK
      modifies this, buffer
      ensures Valid() && msg == old(msg) + data[from..from + n] && iv == old(iv)
    {
      hide Blocks, Tail, Compress;
      ghost var more := data[from..from + n];
      var used := bitcount0 / 8 % BLOCK;
      UsedSpace(|msg|, bitcount0, bitcount1);
      CopyIn(used, data, from, n);
      Count(n);
      CountAdds(|msg|, n, COUNT_MODULUS);
      AbsorbShort(Compress, iv, msg, more, BLOCK);
      assert buffer[..used + n] == buffer[..][..used + n] == old(buffer[..used]) + more;
      msg := msg + more;
    }

    /** Data that completes the pending block. */
    method Complete(data: array<byte>, from: nat, n: nat)
      requires Valid() && Foreign(data) && from + n <= data.Length && |msg| % BLOCK + n == BLOCK
      modifies this, state, buffer
      ensures Valid() && msg == old(msg) + data[from..from + n] && |msg| % BLOCK == 0 && iv == old(iv)
    {
      hide Blocks, Tail, Compress;
      ghost var more := data[from..from + n];
      var used := bitcount0 / 8 % BLOCK;
      UsedSpace(|msg|, bitcount0, bitcount1);
      CopyIn(used, data, from, n);
      Count(n);
      CountAdds(|msg|, n, COUNT_MODULUS);
      assert buffer[..] == Tail(msg, BLOCK) + more;
      TransformBuffer();
      AbsorbFill(Compress, iv, msg, more, BLOCK);
      msg := msg + more;
      assert Tail(msg, BLOCK) == [];
    }

    /** A whole block taken straight from the caller's data. */
    method Direct(data: array<byte>, from: nat)
      requires Valid() && Foreign(data) && from + BLOCK <= data.Length && |msg| % BLOCK == 0
      modifies this, state, buffer
      ensures Valid() && msg == old(msg) + data[from..from + BLOCK] && |msg| % BLOCK == 0 && iv == old(iv)
    {
      hide Blocks, Tail, Compress;
      ghost var more := data[from..from + BLOCK];
      Transform(data, from);
      Count(BLOCK);
      CountAdds(|msg|, BLOCK, COUNT_MODULUS);
      assert Tail(msg, BLOCK) + more == more;
      AbsorbFill(Compress, iv, msg, more, BLOCK);
      msg := msg + more;
      assert Tail(msg, BLOCK) == [];
    }

    /** Whole blocks straight from the caller's data, then what is left into the buffer. */
    method Rest(data: array<byte>, start: nat, length: nat)
      requires Valid() && Foreign(data) && start + length <= data.Length && |msg| % BLOCK == 0
      modifies this, state, buffer
      ensures Valid() && msg == old(msg) + data[start..start + length] && iv == old(iv)
    {
      hide Blocks, Tail, Compress;
      var len, from := length, start;
      ghost var before := msg;
      while len >= BLOCK
        invariant Valid() && |msg| % BLOCK == 0 && iv == old(iv)
        invariant 0 <= len && start <= from && from + len == start + length
        invariant msg == before + data[start..from]
      {
        Direct(data, from);
        assert data[start..from] + data[from..from + BLOCK] == data[start..from + BLOCK];
        len, from := len - BLOCK, from + BLOCK;
      }
      if len > 0 {
        Keep(data, from, len);
        assert data[start..from] + data[from..from + len] == data[start..start + length];
      }
    }

    /** The pending block is filled up first. */
    method CompleteThenRest(data: array<byte>, start: nat, length: nat, free: nat)
      requires Valid() && Foreign(data) && start + length <= data.Length && free <= length
      requires |msg| % BLOCK + free == BLOCK
      modifies this, state, buffer
      ensures Valid() && iv == old(iv) && msg == old(msg) + data[start..start + length]
    {
      hide Valid, Blocks, Tail, Compress, Chain;
      Complete(data, start, free);
      Rest(data, start + free, length - free);
      assert data[start..start + free] + data[start + free..start + length] == data[start..start + length];
    }

    /** SHA512_Update: absorb length bytes, whatever has been absorbed before. */
    method Update(data: array?<byte>, start: nat, length: nat)
      requires Valid() && length < 0x1_0000_0000
      requires data != null ==> Foreign(data) && start + length <= data.Length
      modifies this, state, buffer
      ensures Valid() && iv == old(iv)
      ensures msg == old(msg) + (if data == null then [] else data[start..start + length])
    {
      hide Blocks, Tail, Compress, Chain;
      if length == 0 {
        return;
      }
      if data == null {
        return;
      }
      var used := bitcount0 / 8 % BLOCK;
      UsedSpace(|msg|, bitcount0, bitcount1);
      if used > 0 {
        var free := BLOCK - used;
        if length >= free {
          CompleteThenRest(data, start, length, free);
        } else {
          Keep(data, start, length);
        }
      } else {
        Rest(data, start, length);
      }
    }

    // -------------------------------------------------------------- SHA512_Final

    /** memset to zero of buffer[from..to]. */
    method Clear(from: nat, to: nat)
      requires from <= to <= buffer.Length
      modifies buffer
      ensures buffer[..] == old(buffer[..from]) + Zeros(to - from) + old(buffer[to..])
    {
      forall i | from <= i < to {
        buffer[i] := 0;
      }
    }

    method SetByte(at: nat, b: byte)
      requires at < buffer.Length
      modifies buffer
      ensures buffer[..] == old(buffer[..at]) + [b] + old(buffer[at + 1..])
    {
      buffer[at] := b;
    }

    /** The bit count goes into the last sixteen bytes. */
    method SetCount(field: seq<byte>)
      requires |field| == 16 && buffer.Length == BLOCK
      modifies buffer
      ensures buffer[..] == old(buffer[..BLOCK - 16]) + field
    {
      forall i | 0 <= i < 16 {
        buffer[BLOCK - 16 + i] := field[i];
      }
    }

    /** The pending block, padded up to the length field; in the long case one block has been compressed
        on the way. */
    method PadBuffer(used: nat)
      requires Shape() && used == |msg| % BLOCK && buffer[..used] == Tail(msg, BLOCK)
      modifies state, buffer
      ensures buffer[..BLOCK - 16] ==
        if used + 17 <= BLOCK then Tail(msg, BLOCK) + [0x80] + Zeros(BLOCK - 17 - used) else Zeros(BLOCK - 16)
      ensures Chain() ==
        if used + 17 <= BLOCK then old(Chain())
        else Compress(old(Chain()), Tail(msg, BLOCK) + [0x80] + Zeros(BLOCK - 1 - used))
    {
      hide Blocks, Tail, Compress, Zeros;
      if used > 0 {
        SetByte(used, 0x80);
        var next := used + 1;
        if next <= BLOCK - 16 {
          Clear(next, BLOCK - 16);
        } else {
          if next < BLOCK {
            Clear(next, BLOCK);
          }
          assert buffer[..] == Tail(msg, BLOCK) + [0x80] + Zeros(BLOCK - 1 - used);
          TransformBuffer();
          Clear(0, BLOCK - 2);
          assert buffer[..BLOCK - 16] == Zeros(BLOCK - 16);
        }
      } else {
        Clear(0, BLOCK - 16);
        ZerosSplit(1, BLOCK - 17);
        SetByte(0, 0x80);
      }
    }

    /** The first n state words, converted to big-endian order in place, into the digest. */
    method WriteDigest(digest: array<byte>, n: nat)
      requires Shape() && n <= 8 && digest.Length >= 8 * n && Foreign(digest)
      modifies state, digest
      ensures digest[..] == WordsBytes(Words(old(Chain()))[..n]) + old(digest[8 * n..])
      ensures state[..] == Converted(Words(old(Chain())), n, bigEndian)
    {
      hide WordBytes, ToBigEndian, Stored, WordsBytes, Converted, Foreign;
      ghost var ws := state[..];
      ghost var rest := digest[8 * n..];
      assert ws == Words(Chain());
      ConvertedNone(ws, bigEndian);
      NoBytes();
      var j := 0;
      while j < n
        invariant 0 <= j <= n && state[..] == Converted(ws, j, bigEndian)
        invariant digest[..8 * j] == WordsBytes(ws[..j]) && digest[8 * n..] == rest
      {
        ghost var before := digest[..];
        ConvertedOne(ws, j, bigEndian);
        WriteStateWord(digest, j, ws[j]);
        MoreBytes(ws, j);
        SameEnd(before, digest[..], 8 * j + 8, 8 * n);
        j := j + 1;
      }
      assert digest[..] == digest[..8 * n] + digest[8 * n..];
    }

    method WriteStateWord(digest: array<byte>, j: nat, ghost w: word)
      requires Shape() && j < 8 && 8 * j + 8 <= digest.Length && Foreign(digest) && state[j] == w
      modifies state, digest
      ensures state[..] == old(state[..])[j := ToBigEndian(w, bigEndian)]
      ensures digest[..8 * j + 8] == old(digest[..8 * j]) + WordBytes(w)
      ensures digest[8 * j + 8..] == old(digest[8 * j + 8..])
    {
      hide WordBytes, ToBigEndian, Stored;
      state[j] := ToBigEndian(state[j], bigEndian);
      StoreBigEndian(w, bigEndian);
      WriteWord(digest, 8 * j, Stored(state[j], bigEndian));
    }

    method WriteWord(digest: array<byte>, at: nat, s: seq<byte>)
      requires |s| == 8 && at + 8 <= digest.Length
      modifies digest
      ensures digest[..] == old(digest[..at]) + s + old(digest[at + 8..])
    {
      forall i | 0 <= i < 8 {
        digest[at + i] := s[i];
      }
    }

    /** memset of the whole context. */
    method Wipe()
      requires Shape()
      modifies this, state, buffer
      ensures bitcount0 == bitcount1 == 0 && buffer[..] == Zeros(BLOCK)
      ensures forall i :: 0 <= i < 8 ==> state[i] == Word(0)
    {
      hide Zeros;
      bitcount0, bitcount1 := 0, 0;
      forall i | 0 <= i < 8 {
        state[i] := Word(0);
      }
      Clear(0, BLOCK);
    }

    /** The last block, complete with its length field; in the long case the one before has been compressed. */
    method LastBlock(used: nat, field: seq<byte>)
      requires Shape() && used == |msg| % BLOCK && buffer[..used] == Tail(msg, BLOCK)
      requires field == BigEndian(8 * |msg| % COUNT_MODULUS, 16)
      modifies state, buffer
      ensures buffer[..] == FinalBlock(msg)
      ensures Chain() ==
        if used + 17 <= BLOCK then old(Chain())
        else Compress(old(Chain()), Tail(msg, BLOCK) + [0x80] + Zeros(BLOCK - 1 - used))
    {
      hide Blocks, Tail, Compress, Zeros, Chain, BigEndian;
      PadBuffer(used);
      SetCount(field);
    }

    /** The last block or two: padding, bit count, compression.  The counts are left converted to big-endian order,
        and the buffer as the ring of the last sixteen schedule words. */
    method Last()
      requires Valid()
      modifies `bitcount0, `bitcount1, state, buffer
      ensures Chain() == Blocks(Compress, iv, Padded(msg), BLOCK)
      ensures bitcount0 == Htobe64(old(bitcount0), bigEndian) && bitcount1 == Htobe64(old(bitcount1), bigEndian)
      ensures Shape() && Ring(BlockWords(FinalBlock(msg)), ROUNDS - 16, ROUNDS)
    {
      hide Blocks, Tail, Compress, Zeros, Padded, HostImage, Htobe64, BigEndian, Chain, FinalBlock, Ring;
      var used := bitcount0 / 8 % BLOCK;
      UsedSpace(|msg|, bitcount0, bitcount1);
      CountField(bitcount0, bitcount1, bigEndian);
      ConvertedCount(bitcount0, bigEndian);
      ConvertedCount(bitcount1, bigEndian);
      bitcount0, bitcount1 := Htobe64(bitcount0, bigEndian), Htobe64(bitcount1, bigEndian);
      PaddedBlocks(iv, msg);
      LastBlock(used, HostImage(bitcount1, bigEndian) + HostImage(bitcount0, bigEndian));
      TransformBuffer();
    }

    /** SHA512_Final: the digest of everything absorbed; the context is wiped. */
    method Final(digest: array?<byte>)
      requires Valid()
      requires digest != null ==> digest.Length >= 64 && Foreign(digest)
      modifies this, state, buffer, digest
      ensures digest != null ==>
        digest[..] == WordsBytes(Words(Blocks(Compress, old(iv), Padded(old(msg)), BLOCK))) + old(digest[64..])
      ensures bitcount0 == bitcount1 == 0 && buffer[..] == Zeros(BLOCK)
    {
      hide Blocks, Compress, Zeros, WordsBytes, Words, Padded, Chain;
      if digest != null {
        Last();
        WriteDigest(digest, 8);
        assert Words(Blocks(Compress, iv, Padded(msg), BLOCK))[..8] == Words(Blocks(Compress, iv, Padded(msg), BLOCK));
      }
      Wipe();
    }

    /** SHA384_Final: the first six words.  Its memset is only as long as a pointer, so it clears no more than the
        first state word: the other words stay as the digest was taken from them, the counts stay in big-endian
        order, and the buffer keeps the last sixteen schedule words of the last block. */
    method Final384(digest: array?<byte>, pointer: nat)
      requires Valid() && pointer <= 8
      requires digest != null ==> digest.Length >= 48 && Foreign(digest)
      modifies `bitcount0, `bitcount1, state, buffer, digest
      ensures digest != null ==>
        digest[..] == WordsBytes(Words(Blocks(Compress, iv, Padded(msg), BLOCK))[..6]) + old(digest[48..])
      ensures digest != null ==>
        && bitcount0 == Htobe64(old(bitcount0), bigEndian) && bitcount1 == Htobe64(old(bitcount1), bigEndian)
        && Ring(BlockWords(FinalBlock(msg)), ROUNDS - 16, ROUNDS)
      ensures digest == null ==>
        && bitcount0 == old(bitcount0) && bitcount1 == old(bitcount1) && buffer[..] == old(buffer[..])
      ensures
        var ws := if digest == null then old(state[..])
                  else Converted(Words(Blocks(Compress, iv, Padded(msg), BLOCK)), 6, bigEndian);
        state[..] == ws[0 := Loaded(Zeros(pointer) + Stored(ws[0], bigEndian)[pointer..], bigEndian)]
    {
      hide Blocks, Compress, Zeros, WordsBytes, Padded, Words, Converted, Chain, Htobe64, Ring, FinalBlock, Stored,
        Loaded;
      if digest != null {
        Last();
        WriteDigest(digest, 6);
      }
      state[0] := Loaded(Zeros(pointer) + Stored(state[0], bigEndian)[pointer..], bigEndian);
    }
  }

  /** Absorbing the chunks one after the other. */
  method UpdateAll(ctx: Context, chunks: seq<seq<byte>>)
    requires ctx.Valid() && ctx.msg == [] && forall i :: 0 <= i < |chunks| ==> |chunks[i]| < 0x1_0000_0000
    modifies ctx, ctx.state, ctx.buffer
    ensures ctx.Valid() && ctx.msg == Concat(chunks) && ctx.iv == old(ctx.iv)
  {
    hide Blocks, Tail, Compress;
    var i := 0;
    while i < |chunks|
      invariant 0 <= i <= |chunks|
      invariant ctx.Valid() && ctx.iv == old(ctx.iv) && ctx.msg == Concat(chunks[..i])
    {
      var chunk := chunks[i];
      var data := new byte[|chunk|](k requires 0 <= k < |chunk| => chunk[k]);
      assert data[0..0 + |chunk|] == chunk;
      ctx.Update(data, 0, |chunk|);
      ConcatAppend(chunks[..i], chunk);
      assert chunks[..i + 1] == chunks[..i] + [chunk];
      i := i + 1;
    }
    assert chunks[..i] == chunks;
  }

  /** Streaming equals one shot: however the message is cut into Update calls, Final yields its hash. */
  method Streamed(chunks: seq<seq<byte>>, bigEndian: bool) returns (digest: array<byte>)
    requires forall i :: 0 <= i < |chunks| ==> |chunks[i]| < 0x1_0000_0000
    ensures digest[..] == Hash(Concat(chunks))
  {
    hide Blocks, Padded, WordsBytes, InitialHash;
    var ctx := new Context(bigEndian);
    UpdateAll(ctx, chunks);
    digest := new byte[64];
    ctx.Final(digest);
  }

  /** The same for SHA-384. */
  method Streamed384(chunks: seq<seq<byte>>, bigEndian: bool) returns (digest: array<byte>)
    requires forall i :: 0 <= i < |chunks| ==> |chunks[i]| < 0x1_0000_0000
    ensures digest[..] == Hash384(Concat(chunks))
  {
    hide Blocks, Padded, WordsBytes, InitialHash384, Words;
    var ctx := new Context(bigEndian);
    ctx.Start(InitialHash384());
    UpdateAll(ctx, chunks);
    digest := new byte[48];
    ctx.Final384(digest, 4);
  }
}
