/** The SHA-256 streaming context: SHA256_Init, SHA256_Transform, SHA256_Update and SHA256_Final.
    The 64 buffer bytes serve both as pending input and as the ring of sixteen words in which the
    message schedule is expanded; the block being compressed may be that very buffer. */
module Sha256Context {
  import opened Streaming
  import opened HashWords
  import opened Sha256

  const COUNT_MODULUS := 0x1_0000_0000_0000_0000

  /** One round of the program, on its eight registers. */
  method Step(r: Regs, k: word, w: word) returns (r': Regs)
    ensures r' == Round(r, k, w)
  {
    hide Plus, Ch, Maj, BigSigma0, BigSigma1, MacroBig0, MacroBig1;
    var a, b, c, d, e, f, g, h := r.a, r.b, r.c, r.d, r.e, r.f, r.g, r.h;
    Macros(e);
    Macros(a);
    var t1 := Plus(Plus(Plus(Plus(h, MacroBig1(e)), Ch(e, f, g)), k), w);
    var t2 := Plus(MacroBig0(a), Maj(a, b, c));
    h := g;
    g := f;
    f := e;
    e := Plus(d, t1);
    d := c;
    c := b;
    b := a;
    a := Plus(t1, t2);
    r' := Regs(a, b, c, d, e, f, g, h);
  }

  /** The in-place update of a ring word: W[j & 15] += s1 + W[(j + 9) & 15] + s0. */
  lemma ExpandInPlace(w16: word, w15: word, w7: word, w2: word)
    ensures Plus(w16, Plus(Plus(MacroSmall1(w2), w7), MacroSmall0(w15))) == Expand(w16, w15, w7, w2)
  {
    hide Plus, SmallSigma0, SmallSigma1, MacroSmall0, MacroSmall1;
    Macros(w2);
    Macros(w15);
    PlusCommutes(w16, Plus(Plus(MacroSmall1(w2), w7), MacroSmall0(w15)));
  }

  lemma RoundsStart(r: Regs, block: seq<word>)
    requires |block| == 16
    ensures Rounds(r, block, 0) == r
  {
  }

  lemma RoundsNext(r: Regs, block: seq<word>, t: nat)
    requires |block| == 16 && t < ROUNDS
    ensures Rounds(r, block, t + 1) == Round(Rounds(r, block, t), K(t), Schedule(block, t))
  {
    hide Round, K, Schedule;
  }

  lemma ScheduleStart(block: seq<word>, t: nat)
    requires |block| == 16 && t < 16
    ensures Schedule(block, t) == block[t]
  {
  }

  lemma ScheduleNext(block: seq<word>, t: nat)
    requires |block| == 16 && t >= 16
    ensures Schedule(block, t) ==
      Expand(Schedule(block, t - 16), Schedule(block, t - 15), Schedule(block, t - 7), Schedule(block, t - 2))
  {
    hide Expand;
  }

  /** The buffer position the program reads off its bit count. */
  lemma UsedSpace(n: nat)
    ensures 8 * n % COUNT_MODULUS / 8 % BLOCK == n % BLOCK
  {
    var m := COUNT_MODULUS / 8;
    var q, r := n / m, n % m;
    assert 8 * n == COUNT_MODULUS * q + 8 * r;
    ModOf(q, COUNT_MODULUS, 8 * r);
    assert n == r + BLOCK * (m / BLOCK * q);
    MultipleOf(r, m / BLOCK * q, BLOCK);
  }

  /** The converted count fits its field, which then holds it most significant byte first. */
  lemma ConvertedCount(n: nat, bigEndian: bool)
    requires n < COUNT_MODULUS
    ensures Htobe64(n, bigEndian) < COUNT_MODULUS && HostImage(Htobe64(n, bigEndian), bigEndian) == BigEndian(n, 8)
  {
    hide Htobe64, HostImage, BigEndian, Power;
    PowerOfEight();
    HtobeImage(n, bigEndian);
  }

  /** Hashing the padded message: one block more, or two. */
  lemma PaddedBlocks(iv: Regs, msg: seq<byte>, field: seq<byte>)
    requires field == BigEndian(8 * |msg| % COUNT_MODULUS, 8)
    ensures var used, chain := |msg| % BLOCK, Blocks(Compress, iv, msg, BLOCK);
      Blocks(Compress, iv, Padded(msg), BLOCK)
      == if used + 9 <= BLOCK then Compress(chain, Tail(msg, BLOCK) + [0x80] + Zeros(BLOCK - 9 - used) + field)
         else Compress(Compress(chain, Tail(msg, BLOCK) + [0x80] + Zeros(BLOCK - 1 - used)), Zeros(BLOCK - 8) + field)
  {
    hide Blocks, Tail, Compress, Zeros, Pad, BigEndian;
    if |msg| % BLOCK + 9 <= BLOCK {
      PadOneBlock(Compress, iv, msg, BLOCK, field);
    } else {
      PadTwoBlocks(Compress, iv, msg, BLOCK, field);
    }
  }

  class Context {
    const bigEndian: bool
    const state: array<word>
    const buffer: array<byte>
    var bitcount: nat
    ghost var msg: seq<byte>
    ghost var iv: Regs

    /** The shape of the struct. */
    ghost predicate Shape()
      reads this
    {
      state.Length == 8 && buffer.Length == BLOCK && bitcount < COUNT_MODULUS
    }

    ghost function Chain(): Regs
      reads state
      requires state.Length == 8
    {
      Regs(state[0], state[1], state[2], state[3], state[4], state[5], state[6], state[7])
    }

    /** Started from chaining value iv, the context has absorbed msg. */
    ghost predicate Valid()
      reads this, state, buffer
    {
      && Shape()
      && Chain() == Blocks(Compress, iv, msg, BLOCK)
      && buffer[..|msg| % BLOCK] == Tail(msg, BLOCK)
      && bitcount == 8 * |msg| % COUNT_MODULUS
    }

    constructor (bigEndian: bool)
      ensures Valid() && msg == [] && iv == InitialHash()
      ensures fresh(state) && fresh(buffer) && this.bigEndian == bigEndian
    {
      this.bigEndian := bigEndian;
      state := new word[8];
      buffer := new byte[BLOCK];
      bitcount, msg := 0, [];
      new;
      Init();
    }

    method SetState(h: Regs)
      requires state.Length == 8
      modifies state
      ensures Chain() == h
    {
      state[0] := h.a;
      state[1] := h.b;
      state[2] := h.c;
      state[3] := h.d;
      state[4] := h.e;
      state[5] := h.f;
      state[6] := h.g;
      state[7] := h.h;
    }

    /** Start over from chaining value h. */
    method Start(h: Regs)
      requires state.Length == 8 && buffer.Length == BLOCK
      modifies this, state, buffer
      ensures Valid() && msg == [] && iv == h
    {
      hide Blocks, Tail;
      SetState(h);
      forall i | 0 <= i < BLOCK {
        buffer[i] := 0;
      }
      bitcount, msg, iv := 0, [], h;
      BlocksOfNothing(Compress, h, BLOCK);
    }

    /** SHA256_Init. */
    method Init()
      requires state.Length == 8 && buffer.Length == BLOCK
      modifies this, state, buffer
      ensures Valid() && msg == [] && iv == InitialHash()
    {
      Start(InitialHash());
    }

    // -------------------------------------------------------------- the buffer as a ring of words

    ghost function W(j: nat): word
      reads buffer
      requires buffer.Length == BLOCK && j < 16
    {
      Loaded(buffer[4 * j..4 * j + 4], bigEndian)
    }

    method GetW(j: nat) returns (w: word)
      requires buffer.Length == BLOCK && j < 16
      ensures w == W(j)
    {
      w := Loaded(buffer[4 * j..4 * j + 4], bigEndian);
    }

    method SetW(j: nat, w: word)
      requires buffer.Length == BLOCK && j < 16
      modifies buffer
      ensures W(j) == w
      ensures forall i :: 0 <= i < 16 && i != j ==> W(i) == old(W(i))
      ensures forall i :: 0 <= i < BLOCK && !(4 * j <= i < 4 * j + 4) ==> buffer[i] == old(buffer[i])
    {
      var s := Stored(w, bigEndian);
      buffer[4 * j], buffer[4 * j + 1], buffer[4 * j + 2], buffer[4 * j + 3] := s[0], s[1], s[2], s[3];
      assert buffer[4 * j..4 * j + 4] == s;
      LoadStored(w, bigEndian);
      forall i | 0 <= i < 16 && i != j ensures W(i) == old(W(i)) {
        assert buffer[4 * i..4 * i + 4] == old(buffer[4 * i..4 * i + 4]);
      }
    }

    // -------------------------------------------------------------- SHA256_Transform

    /** The ring holds schedule words lo up to hi, each in its place modulo 16. */
    ghost predicate Ring(block: seq<word>, lo: nat, hi: nat)
      reads buffer
      requires buffer.Length == BLOCK && |block| == 16
    {
      forall i: nat :: lo <= i < hi ==> W(i % 16) == Schedule(block, i)
    }

    /** Put the next word in its place; it overwrites nothing newer than word j - 16. */
    method PutNext(ghost block: seq<word>, ghost lo: nat, j: nat, w: word)
      requires buffer.Length == BLOCK && |block| == 16
      requires j - 15 <= lo <= j && Ring(block, lo, j) && w == Schedule(block, j)
      modifies buffer
      ensures Ring(block, lo, j + 1)
      ensures forall i :: 0 <= i < BLOCK && !(4 * (j % 16) <= i < 4 * (j % 16) + 4) ==> buffer[i] == old(buffer[i])
    {
      hide Schedule, Loaded;
      SetW(j % 16, w);
      forall i: nat | lo <= i < j ensures W(i % 16) == Schedule(block, i) {
        RingPlaces(i, j);
        assert old(W(i % 16)) == Schedule(block, i);
      }
    }

    /** The first sixteen rounds copy the block into the ring, in host byte order. */
    method CopyRounds(src: array<byte>, at: nat, init: Regs) returns (r: Regs)
      requires Shape() && at + BLOCK <= src.Length
      requires src == buffer ==> at == 0
      modifies buffer
      ensures Ring(BlockWords(old(src[at..at + BLOCK])), 0, 16)
      ensures r == Rounds(init, BlockWords(old(src[at..at + BLOCK])), 16)
    {
      hide K, Loaded, ToBigEndian, BytesWord, Round, Rounds, Schedule;
      ghost var bytes := src[at..at + BLOCK];
      ghost var block := BlockWords(bytes);
      r := init;
      RoundsStart(init, block);
      var j := 0;
      while j < 16
        invariant 0 <= j <= 16
        invariant forall i :: 4 * j <= i < BLOCK ==> src[at + i] == bytes[i]
        invariant Ring(block, 0, j)
        invariant r == Rounds(init, block, j)
      {
        assert src[at + 4 * j..at + 4 * j + 4] == bytes[4 * j..4 * j + 4];
        LoadBigEndian(bytes[4 * j..4 * j + 4], bigEndian);
        var w := ToBigEndian(Loaded(src[at + 4 * j..at + 4 * j + 4], bigEndian), bigEndian);
        ScheduleStart(block, j);
        PutNext(block, 0, j, w);
        RoundsNext(init, block, j);
        r := Step(r, K(j), w);
        j := j + 1;
      }
    }

    /** Word t of the schedule takes the place of word t - 16. */
    method ExpandWord(ghost block: seq<word>, j: nat) returns (w: word)
      requires Shape() && |block| == 16 && 16 <= j
      requires Ring(block, j - 16, j)
      modifies buffer
      ensures w == Schedule(block, j)
      ensures Ring(block, j - 15, j + 1)
    {
      hide Schedule, Plus, Expand, MacroSmall0, MacroSmall1, Loaded;
      var s0 := GetW((j + 1) % 16);
      var s1 := GetW((j + 14) % 16);
      var w7 := GetW((j + 9) % 16);
      w := GetW(j % 16);
      RingIndices(j);
      ExpandInPlace(w, s0, w7, s1);
      ScheduleNext(block, j);
      w := Plus(w, Plus(Plus(MacroSmall1(s1), w7), MacroSmall0(s0)));
      PutNext(block, j - 15, j, w);
    }

    /** The other rounds expand the schedule inside the ring. */
    method RingRounds(ghost block: seq<word>, ghost init: Regs, start: Regs) returns (r: Regs)
      requires Shape() && |block| == 16 && start == Rounds(init, block, 16)
      requires Ring(block, 0, 16)
      modifies buffer
      ensures r == Rounds(init, block, ROUNDS)
    {
      hide K, Schedule, Loaded, Round, Rounds;
      r := start;
      var j := 16;
      while j < ROUNDS
        invariant 16 <= j <= ROUNDS
        invariant Ring(block, j - 16, j)
        invariant r == Rounds(init, block, j)
      {
        var w := ExpandWord(block, j);
        RoundsNext(init, block, j);
        r := Step(r, K(j), w);
        j := j + 1;
      }
    }

    /** One compression of the 64 bytes at src[at..]. */
    method Transform(src: array<byte>, at: nat)
      requires Shape() && at + BLOCK <= src.Length
      requires src == buffer ==> at == 0
      modifies state, buffer
      ensures Chain() == Compress(old(Chain()), old(src[at..at + BLOCK]))
    {
      hide Add, Rounds, Schedule, BlockWords;
      ghost var block := BlockWords(src[at..at + BLOCK]);
      var init := Regs(state[0], state[1], state[2], state[3], state[4], state[5], state[6], state[7]);
      var r := CopyRounds(src, at, init);
      r := RingRounds(block, init, r);
      SetState(Add(init, r));
    }

    /** SHA256_Transform on the context's own buffer. */
    method TransformBuffer()
      requires Shape()
      modifies state, buffer
      ensures Chain() == Compress(old(Chain()), old(buffer[..]))
    {
      hide Compress;
      assert buffer[0..0 + BLOCK] == buffer[..];
      Transform(buffer, 0);
    }

    // -------------------------------------------------------------- SHA256_Update

    /** The caller's data does not overlap the context. */
    ghost predicate Foreign(data: array<byte>) {
      data != buffer && (data as object) != state
    }

    /** memcpy into the buffer. */
    method CopyIn(at: nat, data: array<byte>, from: nat, n: nat)
      requires at + n <= buffer.Length && from + n <= data.Length && data != buffer
      modifies buffer
      ensures buffer[..] == old(buffer[..at]) + data[from..from + n] + old(buffer[at + n..])
    {
      forall i | 0 <= i < n {
        buffer[at + i] := data[from + i];
      }
    }

    method Count(n: nat)
      modifies this`bitcount
      ensures bitcount == (old(bitcount) + 8 * n) % COUNT_MODULUS
    {
      bitcount := (bitcount + (n * 8)) % COUNT_MODULUS;
    }

    /** Data that leaves the block incomplete. */
    method Keep(data: array<byte>, from: nat, n: nat)
      requires Valid() && Foreign(data) && from + n <= data.Length && |msg| % BLOCK + n < BLOCK
      modifies this, buffer
      ensures Valid() && msg == old(msg) + data[from..from + n] && iv == old(iv)
    {
      hide Blocks, Tail, Compress;
      ghost var more := data[from..from + n];
      var used := bitcount / 8 % BLOCK;
      UsedSpace(|msg|);
      CopyIn(used, data, from, n);
      Count(n);
      CountAdds(|msg|, n, COUNT_MODULUS);
      AbsorbShort(Compress, iv, msg, more, BLOCK);
      assert buffer[..used + n] == buffer[..][..used + n] == old(buffer[..used]) + more;
      msg := msg + more;
    }

    /** Data that completes the pending block. */
    method Complete(data: array<byte>, from: nat, n: nat)
      requires Valid() && Foreign(data) && from + n <= data.Length && |msg| % BLOCK + n == BLOCK
      modifies this, state, buffer
      ensures Valid() && msg == old(msg) + data[from..from + n] && |msg| % BLOCK == 0 && iv == old(iv)
    {
      hide Blocks, Tail, Compress;
      ghost var more := data[from..from + n];
      var used := bitcount / 8 % BLOCK;
      UsedSpace(|msg|);
      CopyIn(used, data, from, n);
      Count(n);
      CountAdds(|msg|, n, COUNT_MODULUS);
      assert buffer[..] == Tail(msg, BLOCK) + more;
      TransformBuffer();
      AbsorbFill(Compress, iv, msg, more, BLOCK);
      msg := msg + more;
      assert Tail(msg, BLOCK) == [];
    }

    /** A whole block taken straight from the caller's data. */
    method Direct(data: array<byte>, from: nat)
      requires Valid() && Foreign(data) && from + BLOCK <= data.Length && |msg| % BLOCK == 0
      modifies this, state, buffer
      ensures Valid() && msg == old(msg) + data[from..from + BLOCK] && |msg| % BLOCK == 0 && iv == old(iv)
    {
      hide Blocks, Tail, Compress;
      ghost var more := data[from..from + BLOCK];
      Transform(data, from);
      Count(BLOCK);
      CountAdds(|msg|, BLOCK, COUNT_MODULUS);
      assert Tail(msg, BLOCK) + more == more;
      AbsorbFill(Compress, iv, msg, more, BLOCK);
      msg := msg + more;
      assert Tail(msg, BLOCK) == [];
    }

    /** Whole blocks straight from the caller's data, then what is left into the buffer. */
    method Rest(data: array<byte>, start: nat, length: nat)
      requires Valid() && Foreign(data) && start + length <= data.Length && |msg| % BLOCK == 0
      modifies this, state, buffer
      ensures Valid() && msg == old(msg) + data[start..start + length] && iv == old(iv)
    {
      hide Blocks, Tail, Compress;
      var len, from := length, start;
      ghost var before := msg;
      while len >= BLOCK
        invariant Valid() && |msg| % BLOCK == 0 && iv == old(iv)
        invariant 0 <= len && start <= from && from + len == start + length
        invariant msg == before + data[start..from]
      {
        Direct(data, from);
        assert data[start..from] + data[from..from + BLOCK] == data[start..from + BLOCK];
        len, from := len - BLOCK, from + BLOCK;
      }
      if len > 0 {
        Keep(data, from, len);
        assert data[start..from] + data[from..from + len] == data[start..start + length];
      }
    }

    /** The pending block is filled up first. */
    method CompleteThenRest(data: array<byte>, start: nat, length: nat, free: nat)
      requires Valid() && Foreign(data) && start + length <= data.Length && free <= length
      requires |msg| % BLOCK + free == BLOCK
      modifies this, state, buffer
      ensures Valid() && iv == old(iv) && msg == old(msg) + data[start..start + length]
    {
      hide Valid, Blocks, Tail, Compress, Chain;
      Complete(data, start, free);
      Rest(data, start + free, length - free);
      assert data[start..start + free] + data[start + free..start + length] == data[start..start + length];
    }

    /** SHA256_Update: absorb length bytes, whatever has been absorbed before. */
    method Update(data: array?<byte>, start: nat, length: nat)
      requires Valid() && length < 0x1_0000_0000
      requires data != null ==> Foreign(data) && start + length <= data.Length
      modifies this, state, buffer
      ensures Valid() && iv == old(iv)
      ensures msg == old(msg) + (if data == null then [] else data[start..start + length])
    {
      hide Blocks, Tail, Compress, Chain;
      if length == 0 {
        return;
      }
      if data == null {
        return;
      }
      var used := bitcount / 8 % BLOCK;
      UsedSpace(|msg|);
      if used > 0 {
        var free := BLOCK - used;
        if length >= free {
          CompleteThenRest(data, start, length, free);
        } else {
          Keep(data, start, length);
        }
      } else {
        Rest(data, start, length);
      }
    }

    // -------------------------------------------------------------- SHA256_Final

    /** memset to zero of buffer[from..to]. */
    method Clear(from: nat, to: nat)
      requires from <= to <= buffer.Length
      modifies buffer
      ensures buffer[..] == old(buffer[..from]) + Zeros(to - from) + old(buffer[to..])
    {
      forall i | from <= i < to {
        buffer[i] := 0;
      }
    }

    method SetByte(at: nat, b: byte)
      requires at < buffer.Length
      modifies buffer
      ensures buffer[..] == old(buffer[..at]) + [b] + old(buffer[at + 1..])
    {
      buffer[at] := b;
    }

    /** The bit count goes into the last eight bytes. */
    method SetCount(field: seq<byte>)
      requires |field| == 8 && buffer.Length == BLOCK
      modifies buffer
      ensures buffer[..] == old(buffer[..BLOCK - 8]) + field
    {
      forall i | 0 <= i < 8 {
        buffer[BLOCK - 8 + i] := field[i];
      }
    }

    /** The pending block, padded up to the length field; in the long case one block has been compressed
        on the way. */
    method PadBuffer(used: nat)
      requires Shape() && used == |msg| % BLOCK && buffer[..used] == Tail(msg, BLOCK)
      modifies state, buffer
      ensures buffer[..BLOCK - 8] ==
        if used + 9 <= BLOCK then Tail(msg, BLOCK) + [0x80] + Zeros(BLOCK - 9 - used) else Zeros(BLOCK - 8)
      ensures Chain() ==
        if used + 9 <= BLOCK then old(Chain())
        else Compress(old(Chain()), Tail(msg, BLOCK) + [0x80] + Zeros(BLOCK - 1 - used))
    {
      hide Blocks, Tail, Compress, Zeros;
      if used > 0 {
        SetByte(used, 0x80);
        var next := used + 1;
        if next <= BLOCK - 8 {
          Clear(next, BLOCK - 8);
        } else {
          if next < BLOCK {
            Clear(next, BLOCK);
          }
          assert buffer[..] == Tail(msg, BLOCK) + [0x80] + Zeros(BLOCK - 1 - used);
          TransformBuffer();
          Clear(0, BLOCK - 8);
        }
      } else {
        Clear(0, BLOCK - 8);
        ZerosSplit(1, BLOCK - 9);
        SetByte(0, 0x80);
      }
    }

    /** The state words, converted to big-endian order, into the digest. */
    method WriteDigest(digest: array<byte>)
      requires Shape() && digest.Length >= 32 && Foreign(digest)
      modifies state, digest
      ensures digest[..] == WordsBytes(Words(old(Chain()))) + old(digest[32..])
    {
      hide WordBytes, ToBigEndian, Stored;
      ghost var ws := state[..];
      ghost var rest := digest[32..];
      assert ws == Words(Chain());
      var j := 0;
      while j < 8
        invariant 0 <= j <= 8
        invariant forall i :: j <= i < 8 ==> state[i] == ws[i]
        invariant digest[..4 * j] == WordsBytes(ws[..j])
        invariant digest[32..] == rest
      {
        state[j] := ToBigEndian(state[j], bigEndian);
        StoreBigEndian(ws[j], bigEndian);
        WriteWord(digest, 4 * j, Stored(state[j], bigEndian));
        assert ws[..j + 1][..j] == ws[..j];
        j := j + 1;
      }
      assert ws[..8] == ws;
      assert digest[..] == digest[..32] + digest[32..];
    }

    method WriteWord(digest: array<byte>, at: nat, s: seq<byte>)
      requires |s| == 4 && at + 4 <= digest.Length
      modifies digest
      ensures digest[..] == old(digest[..at]) + s + old(digest[at + 4..])
    {
      digest[at], digest[at + 1], digest[at + 2], digest[at + 3] := s[0], s[1], s[2], s[3];
    }

    /** memset of the whole context. */
    method Wipe()
      requires Shape()
      modifies this, state, buffer
      ensures bitcount == 0 && buffer[..] == Zeros(BLOCK)
      ensures forall i :: 0 <= i < 8 ==> state[i] == Word(0)
    {
      hide Zeros;
      bitcount := 0;
      forall i | 0 <= i < 8 {
        state[i] := Word(0);
      }
      Clear(0, BLOCK);
    }

    /** The last block, complete with its length field; in the long case the one before has been compressed. */
    method LastBlock(used: nat, field: seq<byte>)
      requires Shape() && used == |msg| % BLOCK && buffer[..used] == Tail(msg, BLOCK) && |field| == 8
      modifies state, buffer
      ensures buffer[..] ==
        (if used + 9 <= BLOCK then Tail(msg, BLOCK) + [0x80] + Zeros(BLOCK - 9 - used) else Zeros(BLOCK - 8)) + field
      ensures Chain() ==
        if used + 9 <= BLOCK then old(Chain())
        else Compress(old(Chain()), Tail(msg, BLOCK) + [0x80] + Zeros(BLOCK - 1 - used))
    {
      hide Blocks, Tail, Compress, Zeros, Chain;
      PadBuffer(used);
      SetCount(field);
    }

    /** The last block or two: padding, bit count, compression.  The count is left converted to big-endian order. */
    method Last()
      requires Valid()
      modifies this`bitcount, state, buffer
      ensures Shape() && Chain() == Blocks(Compress, iv, Padded(msg), BLOCK)
      ensures bitcount == Htobe64(old(bitcount), bigEndian)
    {
      hide Blocks, Tail, Compress, Zeros, Pad, BigEndian, HostImage, Htobe64, Chain;
      var used := bitcount / 8 % BLOCK;
      UsedSpace(|msg|);
      ghost var field := BigEndian(bitcount, 8);
      ConvertedCount(bitcount, bigEndian);
      bitcount := Htobe64(bitcount, bigEndian);
      LastBlock(used, HostImage(bitcount, bigEndian));
      TransformBuffer();
      PaddedBlocks(iv, msg, field);
    }

    /** SHA256_Final: the digest of everything absorbed; the context is wiped. */
    method Final(digest: array?<byte>)
      requires Valid()
      requires digest != null ==> digest.Length >= 32 && Foreign(digest)
      modifies this, state, buffer, digest
      ensures digest != null ==>
        digest[..] == WordsBytes(Words(Blocks(Compress, old(iv), Padded(old(msg)), BLOCK))) + old(digest[32..])
      ensures bitcount == 0 && buffer[..] == Zeros(BLOCK)
    {
      hide Blocks, Compress, Zeros, WordsBytes, Words, Padded, Chain;
      if digest != null {
        Last();
        WriteDigest(digest);
      }
      Wipe();
    }
  }

  /** Absorbing the chunks one after the other. */
  method UpdateAll(ctx: Context, chunks: seq<seq<byte>>)
    requires ctx.Valid() && ctx.msg == [] && forall i :: 0 <= i < |chunks| ==> |chunks[i]| < 0x1_0000_0000
    modifies ctx, ctx.state, ctx.buffer
    ensures ctx.Valid() && ctx.msg == Concat(chunks) && ctx.iv == old(ctx.iv)
  {
    hide Blocks, Tail, Compress;
    var i := 0;
    while i < |chunks|
      invariant 0 <= i <= |chunks|
      invariant ctx.Valid() && ctx.iv == old(ctx.iv) && ctx.msg == Concat(chunks[..i])
    {
      var chunk := chunks[i];
      var data := new byte[|chunk|](k requires 0 <= k < |chunk| => chunk[k]);
      assert data[0..0 + |chunk|] == chunk;
      ctx.Update(data, 0, |chunk|);
      ConcatAppend(chunks[..i], chunk);
      assert chunks[..i + 1] == chunks[..i] + [chunk];
      i := i + 1;
    }
    assert chunks[..i] == chunks;
  }

  /** Streaming equals one shot: however the message is cut into Update calls, Final yields its hash. */
  method Streamed(chunks: seq<seq<byte>>, bigEndian: bool) returns (digest: array<byte>)
    requires forall i :: 0 <= i < |chunks| ==> |chunks[i]| < 0x1_0000_0000
    ensures digest[..] == Hash(Concat(chunks))
  {
    hide Blocks, Padded, WordsBytes, InitialHash;
    var ctx := new Context(bigEndian);
    UpdateAll(ctx, chunks);
    digest := new byte[32];
    ctx.Final(digest);
  }
}
