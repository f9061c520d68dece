/** What the streaming hash contexts have in common: folding a compression function over the whole
    blocks of a message, big-endian and little-endian byte strings of counters, and the padding that
    ends with a length field. */
module Streaming {

  type byte = bv8

  /** The chaining value after the complete blocks of msg; a trailing partial block is not touched. */
  function Blocks<S>(f: (S, seq<byte>) -> S, iv: S, msg: seq<byte>, b: nat): S
    requires b > 0
    decreases |msg|
  {
    if |msg| < b then iv else Blocks(f, f(iv, msg[..b]), msg[b..], b)
  }

  lemma BlocksOfNothing<S>(f: (S, seq<byte>) -> S, iv: S, b: nat)
    requires b > 0
    ensures Blocks(f, iv, [], b) == iv && Tail([], b) == []
  {
  }

  lemma {:induction false} BlocksAppend<S>(f: (S, seq<byte>) -> S, iv: S, x: seq<byte>, y: seq<byte>, b: nat)
    requires b > 0 && |x| % b == 0
    ensures Blocks(f, iv, x + y, b) == Blocks(f, Blocks(f, iv, x, b), y, b)
    decreases |x|
  {
    if x == [] {
      assert x + y == y;
    } else {
      assert |x| >= b;
      assert (x + y)[..b] == x[..b] && (x + y)[b..] == x[b..] + y;
      WholeBlocksLess(|x|, b);
      BlocksAppend(f, f(iv, x[..b]), x[b..], y, b);
    }
  }

  lemma WholeBlocksLess(n: nat, b: nat)
    requires b > 0 && n >= b
    ensures (n - b) % b == n % b
  {
    var q, r := n / b, n % b;
    assert n == b * q + r;
    assert n - b == b * (q - 1) + r;
    ModOf(q - 1, b, r);
    ModOf(q, b, r);
  }

  lemma ModOf(q: int, b: nat, r: nat)
    requires 0 <= r < b
    ensures (b * q + r) % b == r
  {
    var n := b * q + r;
    assert n == b * (n / b) + n % b;
    assert b * (n / b - q) == r - n % b;
    MultipleGrows(b, n / b - q);
  }

  /** Counting bits modulo m. */
  lemma CountAdds(n: nat, k: nat, m: nat)
    requires m > 0
    ensures (8 * n % m + 8 * k) % m == 8 * (n + k) % m
  {
    var r := 8 * n % m + 8 * k;
    assert 8 * (n + k) == m * (8 * n / m + r / m) + r % m;
    ModOf(8 * n / m + r / m, m, r % m);
  }

  /** Two words, modulo what they hold together. */
  lemma TopPart(low: nat, sum: nat, w: nat)
    requires low < w
    ensures w * w > 0 && (low + w * sum) % (w * w) == low + w * (sum % w)
  {
    var q, r := sum / w, low + w * (sum % w);
    assert w * (sum % w) <= w * (w - 1);
    assert w * sum == w * (w * q) + w * (sum % w);
    assert low + w * sum == w * w * q + r;
    ModOf(q, w * w, r);
  }

  lemma MultipleOf(n: nat, k: nat, b: nat)
    requires b > 0
    ensures (n + b * k) % b == n % b
  {
    assert n + b * k == b * (n / b + k) + n % b;
    ModOf(n / b + k, b, n % b);
  }

  // ---------------------------------------------------------------- the ring of sixteen words

  lemma RingIndices(j: nat)
    requires j >= 16
    ensures (j + 1) % 16 == (j - 15) % 16 && (j + 14) % 16 == (j - 2) % 16
    ensures (j + 9) % 16 == (j - 7) % 16 && j % 16 == (j - 16) % 16
  {
  }

  lemma RingPlaces(i: nat, j: nat)
    requires j - 16 < i < j
    ensures i % 16 != j % 16
  {
  }

  lemma MultipleGrows(b: int, d: int)
    requires b > 0
    ensures d >= 1 ==> b * d >= b
    ensures d <= -1 ==> b * d <= -b
  {
    assert b * d == b + b * (d - 1) == b * (d + 1) - b;
    assert d >= 1 ==> b * (d - 1) >= 0;
    assert d <= -1 ==> b * (d + 1) <= 0;
  }

  /** The part of msg after its complete blocks. */
  function Tail(msg: seq<byte>, b: nat): (t: seq<byte>)
    requires b > 0
    ensures |t| == |msg| % b
  {
    msg[|msg| - |msg| % b..]
  }

  function Whole(msg: seq<byte>, b: nat): (w: seq<byte>)
    requires b > 0
    ensures w + Tail(msg, b) == msg && |w| % b == 0
  {
    WholeLength(|msg|, b);
    msg[..|msg| - |msg| % b]
  }

  lemma WholeLength(n: nat, b: nat)
    requires b > 0
    ensures (n - n % b) % b == 0
  {
    assert n - n % b == b * (n / b) + 0;
    ModOf(n / b, b, 0);
  }

  /** Data that does not complete the pending block only joins it. */
  lemma AbsorbShort<S>(f: (S, seq<byte>) -> S, iv: S, msg: seq<byte>, more: seq<byte>, b: nat)
    requires b > 0 && |msg| % b + |more| < b
    ensures Blocks(f, iv, msg + more, b) == Blocks(f, iv, msg, b)
    ensures Tail(msg + more, b) == Tail(msg, b) + more
    ensures |msg + more| % b == |msg| % b + |more|
  {
    hide Blocks, Whole, Tail;
    var w := Whole(msg, b);
    var t := Tail(msg, b) + more;
    assert msg + more == w + t;
    TailAfterWhole(w, t, b);
    BlocksAppend(f, iv, w, t, b);
    BlocksAppend(f, iv, w, Tail(msg, b), b);
    TooShort(f, Blocks(f, iv, w, b), t, b);
    TooShort(f, Blocks(f, iv, w, b), Tail(msg, b), b);
  }

  lemma TooShort<S>(f: (S, seq<byte>) -> S, iv: S, t: seq<byte>, b: nat)
    requires b > 0 && |t| < b
    ensures Blocks(f, iv, t, b) == iv
  {
  }

  lemma TailAfterWhole(w: seq<byte>, t: seq<byte>, b: nat)
    requires b > 0 && |w| % b == 0 && |t| < b
    ensures |w + t| % b == |t| && Tail(w + t, b) == t
  {
    assert |w| == b * (|w| / b);
    ModOf(|w| / b, b, |t|);
  }

  /** Data that exactly completes the pending block causes one compression. */
  lemma AbsorbFill<S>(f: (S, seq<byte>) -> S, iv: S, msg: seq<byte>, more: seq<byte>, b: nat)
    requires b > 0 && |msg| % b + |more| == b
    ensures Blocks(f, iv, msg + more, b) == f(Blocks(f, iv, msg, b), Tail(msg, b) + more)
    ensures |msg + more| % b == 0
  {
    var w := Whole(msg, b);
    var t := Tail(msg, b) + more;
    assert msg + more == w + t;
    assert |w| == b * (|w| / b);
    assert |msg + more| == b * (|w| / b + 1) + 0;
    ModOf(|w| / b + 1, b, 0);
    BlocksAppend(f, iv, w, t, b);
    BlocksAppend(f, iv, w, Tail(msg, b), b);
    var s := Blocks(f, iv, w, b);
    assert t[..b] == t && t[b..] == [];
    assert Blocks(f, s, t, b) == Blocks(f, f(s, t), [], b);
  }

  // ---------------------------------------------------------------- numbers as bytes

  /** The k low bytes of n, most significant first. */
  function BigEndian(n: nat, k: nat): (s: seq<byte>)
    ensures |s| == k
  {
    if k == 0 then [] else BigEndian(n / 0x100, k - 1) + [(n % 0x100) as byte]
  }

  function Power(k: nat): nat {
    if k == 0 then 1 else 0x100 * Power(k - 1)
  }

  lemma PowerOfEight()
    ensures Power(8) == 0x1_0000_0000_0000_0000
  {
    assert Power(4) == 0x1_0000_0000;
    assert Power(8) == 0x100 * (0x100 * (0x100 * (0x100 * Power(4))));
  }

  lemma CarryFree(n: nat, m: nat)
    ensures (n + 0x100 * m) % 0x100 == n % 0x100 && (n + 0x100 * m) / 0x100 == n / 0x100 + m
  {
  }

  function Reversed(s: seq<byte>): (r: seq<byte>)
    ensures |r| == |s|
    ensures forall i :: 0 <= i < |s| ==> r[i] == s[|s| - 1 - i]
  {
    if s == [] then [] else Reversed(s[1..]) + [s[0]]
  }

  lemma ReversedTwice(s: seq<byte>)
    ensures Reversed(Reversed(s)) == s
  {
  }

  function Zeros(n: nat): (s: seq<byte>)
    ensures |s| == n
    ensures forall i :: 0 <= i < n ==> s[i] == 0
  {
    if n == 0 then [] else [0] + Zeros(n - 1)
  }

  lemma ZerosSplit(m: nat, n: nat)
    ensures Zeros(m + n) == Zeros(m) + Zeros(n)
  {
  }

  /** The bytes of a 64-bit number in the memory of a host of either byte order. */
  function HostImage(n: nat, bigEndian: bool): seq<byte> {
    if bigEndian then BigEndian(n, 8) else Reversed(BigEndian(n, 8))
  }

  /** The number with these bytes, most significant first. */
  function Number(s: seq<byte>): nat {
    if s == [] then 0 else 0x100 * Number(s[..|s| - 1]) + s[|s| - 1] as nat
  }

  lemma {:induction false} NumberBytes(s: seq<byte>)
    ensures BigEndian(Number(s), |s|) == s && Number(s) < Power(|s|)
    decreases |s|
  {
    if s != [] {
      var front, last := s[..|s| - 1], s[|s| - 1];
      NumberBytes(front);
      LastByte(Number(front), last);
      assert s == front + [last];
    }
  }

  lemma LastByte(n: nat, b: byte)
    ensures (0x100 * n + b as nat) / 0x100 == n && (0x100 * n + b as nat) % 0x100 == b as nat
  {
  }

  /** os_htobe64, on the number: what the host reads from the swapped image. */
  function Htobe64(n: nat, bigEndian: bool): nat {
    if bigEndian then n else Number(Reversed(BigEndian(n, 8)))
  }

  /** Stored by the host, the converted number stands in memory most significant byte first. */
  lemma HtobeImage(n: nat, bigEndian: bool)
    ensures HostImage(Htobe64(n, bigEndian), bigEndian) == BigEndian(n, 8)
    ensures n < Power(8) ==> Htobe64(n, bigEndian) < Power(8)
  {
    hide BigEndian, Reversed, Number, Power;
    NumberBytes(Reversed(BigEndian(n, 8)));
    ReversedTwice(BigEndian(n, 8));
  }

  lemma PadFits(msg: seq<byte>, b: nat, field: seq<byte>)
    requires 0 < |field| < b && |msg| % b + 1 + |field| <= b
    ensures Pad(msg, b, field) == msg + ([0x80] + Zeros(b - |field| - 1 - |msg| % b) + field)
  {
  }

  /** Padding that fits into the pending block. */
  lemma PadOneBlock<S>(f: (S, seq<byte>) -> S, iv: S, msg: seq<byte>, b: nat, field: seq<byte>)
    requires 0 < |field| < b && |msg| % b + 1 + |field| <= b
    ensures Blocks(f, iv, Pad(msg, b, field), b)
         == f(Blocks(f, iv, msg, b), Tail(msg, b) + [0x80] + Zeros(b - |field| - 1 - |msg| % b) + field)
  {
    hide Blocks, Tail, Pad, Zeros;
    var pad := [0x80] + Zeros(b - |field| - 1 - |msg| % b) + field;
    PadFits(msg, b, field);
    assert Tail(msg, b) + pad == Tail(msg, b) + [0x80] + Zeros(b - |field| - 1 - |msg| % b) + field;
    AbsorbFill(f, iv, msg, pad, b);
  }

  /** Padding that needs a block of its own. */
  lemma PadTwoBlocks<S>(f: (S, seq<byte>) -> S, iv: S, msg: seq<byte>, b: nat, field: seq<byte>)
    requires 0 < |field| < b && |msg| % b + 1 + |field| > b
    ensures Blocks(f, iv, Pad(msg, b, field), b)
         == f(f(Blocks(f, iv, msg, b), Tail(msg, b) + [0x80] + Zeros(b - 1 - |msg| % b)), Zeros(b - |field|) + field)
  {
    hide Blocks, Tail;
    var r := |msg| % b;
    var first := [0x80] + Zeros(b - 1 - r);
    var second := Zeros(b - |field|) + field;
    PadSplits(msg, b, field);
    AbsorbFill(f, iv, msg, first, b);
    AbsorbFill(f, iv, msg + first, second, b);
    assert Tail(msg + first, b) + second == second;
    assert Tail(msg, b) + first == Tail(msg, b) + [0x80] + Zeros(b - 1 - r);
  }

  lemma PadSplits(msg: seq<byte>, b: nat, field: seq<byte>)
    requires 0 < |field| < b && |msg| % b + 1 + |field| > b
    ensures Pad(msg, b, field) == (msg + ([0x80] + Zeros(b - 1 - |msg| % b))) + (Zeros(b - |field|) + field)
  {
    ZerosSplit(b - 1 - |msg| % b, b - |field|);
  }

  /** The number of zero bytes between the 0x80 and a length field of l bytes. */
  function ZeroCount(n: nat, b: nat, l: nat): nat
    requires 0 < l < b
  {
    if n % b + 1 + l <= b then b - l - 1 - n % b else 2 * b - l - 1 - n % b
  }

  lemma ZeroCountAligns(n: nat, b: nat, l: nat)
    requires 0 < l < b
    ensures (n + 1 + ZeroCount(n, b, l) + l) % b == 0
  {
    var q, r := n / b, n % b;
    var times := if r + 1 + l <= b then q + 1 else q + 2;
    assert n == b * q + r;
    assert n + 1 + ZeroCount(n, b, l) + l == b * times + 0;
    ModOf(times, b, 0);
  }

  /** Fewer zero bytes would not make the padded length a multiple of the block length. */
  lemma ZeroCountIsLeast(n: nat, b: nat, l: nat, z: nat)
    requires 0 < l < b && z < ZeroCount(n, b, l)
    ensures (n + 1 + z + l) % b != 0
  {
    var q, r := n / b, n % b;
    assert n == b * q + r;
    var rest := r + 1 + z + l;
    if rest < b {
      ModOf(q, b, rest);
    } else {
      assert n + 1 + z + l == b * (q + 1) + (rest - b);
      ModOf(q + 1, b, rest - b);
    }
  }

  /** Padding: a one bit, zero bits, and the length field. */
  function Pad(msg: seq<byte>, b: nat, field: seq<byte>): seq<byte>
    requires 0 < |field| < b
  {
    msg + [0x80] + Zeros(ZeroCount(|msg|, b, |field|)) + field
  }

  /** Chunks one after the other. */
  function Concat(chunks: seq<seq<byte>>): seq<byte> {
    if chunks == [] then [] else chunks[0] + Concat(chunks[1..])
  }

  lemma {:induction false} ConcatAppend(chunks: seq<seq<byte>>, c: seq<byte>)
    ensures Concat(chunks + [c]) == Concat(chunks) + c
  {
    if chunks == [] {
      assert chunks + [c] == [c];
      assert [c][1..] == [];
    } else {
      ConcatAppend(chunks[1..], c);
      assert (chunks + [c])[1..] == chunks[1..] + [c];
    }
  }
}
