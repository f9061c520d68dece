/** JSON string literals: how cJSON escapes a string, how its two passes size and decode one, and the
    UTF-8 encoding of `\u` escapes (RFC 8259 section 7, RFC 3629 section 3).  One character per byte. */
module CjsonString {
  import opened Wrappers
  import opened CjsonKeys

  /** What has yet to be read, from r on, is a C string that ends at n. */
  ghost predicate Unread(text: array<char>, r: nat, n: nat)
    reads text
  {
    r <= n < text.Length && text[n] == '\0' && forall k :: r <= k < n ==> text[k] != '\0'
  }

  /** s in front of the text r, if there is one. */
  function Onto(s: string, r: Option<string>): Option<string> {
    match r
    case None => None
    case Some(t) => Some(s + t)
  }

  lemma OntoTwice(s: string, t: string, r: Option<string>)
    ensures Onto(s, Onto(t, r)) == Onto(s + t, r)
  {
    if r.Some? {
      assert s + (t + r.value) == (s + t) + r.value;
    }
  }

  lemma OntoNothing(r: Option<string>)
    ensures Onto([], r) == r
  {
    assert r.Some? ==> [] + r.value == r.value;
  }

  // ---------------------------------------------------------------- escaping

  function HexDigit(n: nat): (c: char)
    requires n < 16
    ensures HexValue(c) == Some(n)
  {
    if n < 10 then '0' + n as char else 'a' + (n - 10) as char
  }

  function HexValue(c: char): Option<nat> {
    if '0' <= c <= '9' then Some(c as nat - '0' as nat)
    else if 'A' <= c <= 'F' then Some(10 + (c as nat - 'A' as nat))
    else if 'a' <= c <= 'f' then Some(10 + (c as nat - 'a' as nat))
    else None
  }

  predicate Plain(c: char) {
    c > '\U{1f}' && c != '\"' && c != '\\'
  }

  /** The single-letter escape of a byte, if it has one. */
  function ShortEscape(c: char): Option<char> {
    if c == '\\' then Some('\\')
    else if c == '\"' then Some('\"')
    else if c == '\U{8}' then Some('b')
    else if c == '\U{c}' then Some('f')
    else if c == '\n' then Some('n')
    else if c == '\r' then Some('r')
    else if c == '\t' then Some('t')
    else None
  }

  function EscapeChar(c: char): (e: string)
    ensures 1 <= |e| <= 6
  {
    if Plain(c) then [c]
    else match ShortEscape(c)
      case Some(l) => ['\\', l]
      case None => ['\\', 'u', '0', '0', HexDigit(c as nat / 16 % 16), HexDigit(c as nat % 16)]
  }

  function Escape(s: string): string {
    if s == [] then [] else EscapeChar(s[0]) + Escape(s[1..])
  }

  function Quote(s: string): string {
    ['\"'] + Escape(s) + ['\"']
  }

  // ---------------------------------------------------------------- UTF-8

  /** RFC 3629 section 3: the octets of a code point. */
  function Utf8(cp: nat): (u: string)
    requires cp < 0x11_0000
    ensures 1 <= |u| <= 4
  {
    if cp < 0x80 then [cp as char]
    else if cp < 0x800 then [(0xc0 + cp / 0x40) as char, (0x80 + cp % 0x40) as char]
    else if cp < 0x1_0000 then
      [(0xe0 + cp / 0x1000) as char, (0x80 + cp / 0x40 % 0x40) as char, (0x80 + cp % 0x40) as char]
    else
      [(0xf0 + cp / 0x4_0000) as char, (0x80 + cp / 0x1000 % 0x40) as char,
       (0x80 + cp / 0x40 % 0x40) as char, (0x80 + cp % 0x40) as char]
  }

  /** Reading the octets back: the low bits of the first, then six bits each. */
  function Utf8Value(u: string): nat
    requires 1 <= |u| <= 4
  {
    if |u| == 1 then u[0] as nat
    else if |u| == 2 then u[0] as nat % 0x20 * 0x40 + u[1] as nat % 0x40
    else if |u| == 3 then u[0] as nat % 0x10 * 0x1000 + u[1] as nat % 0x40 * 0x40 + u[2] as nat % 0x40
    else u[0] as nat % 8 * 0x4_0000 + u[1] as nat % 0x40 * 0x1000 + u[2] as nat % 0x40 * 0x40 + u[3] as nat % 0x40
  }

  /** Cutting a code point into groups of six bits. */
  lemma Sextets(cp: nat)
    ensures cp == cp / 0x40 * 0x40 + cp % 0x40
    ensures cp / 0x40 == cp / 0x1000 * 0x40 + cp / 0x40 % 0x40
    ensures cp / 0x1000 == cp / 0x4_0000 * 0x40 + cp / 0x1000 % 0x40
  {
    assert cp / 0x40 / 0x40 == cp / 0x1000;
    assert cp / 0x1000 / 0x40 == cp / 0x4_0000;
  }

  lemma TwoOctets(w: nat, x: nat)
    requires w < 0x20 && x < 0x40
    ensures Utf8Value([(0xc0 + w) as char, (0x80 + x) as char]) == w * 0x40 + x
  {
  }

  lemma ThreeOctets(w: nat, x: nat, y: nat)
    requires w < 0x10 && x < 0x40 && y < 0x40
    ensures Utf8Value([(0xe0 + w) as char, (0x80 + x) as char, (0x80 + y) as char]) == w * 0x1000 + x * 0x40 + y
  {
  }

  lemma FourOctets(w: nat, x: nat, y: nat, z: nat)
    requires w < 8 && x < 0x40 && y < 0x40 && z < 0x40
    ensures Utf8Value([(0xf0 + w) as char, (0x80 + x) as char, (0x80 + y) as char, (0x80 + z) as char])
         == w * 0x4_0000 + x * 0x1000 + y * 0x40 + z
  {
  }

  /** The octets stand for the code point, each within its range, in the shortest form. */
  lemma Utf8Correct(cp: nat)
    requires cp < 0x11_0000
    ensures Utf8Value(Utf8(cp)) == cp
    ensures |Utf8(cp)| == if cp < 0x80 then 1 else if cp < 0x800 then 2 else if cp < 0x1_0000 then 3 else 4
    ensures forall i :: 1 <= i < |Utf8(cp)| ==> 0x80 <= Utf8(cp)[i] as nat < 0xc0
  {
    hide Utf8Value;
    Sextets(cp);
    if cp < 0x80 {
      OneOctet(cp);
    } else if cp < 0x800 {
      TwoOctets(cp / 0x40, cp % 0x40);
    } else if cp < 0x1_0000 {
      ThreeOctets(cp / 0x1000, cp / 0x40 % 0x40, cp % 0x40);
    } else {
      FourOctets(cp / 0x4_0000, cp / 0x1000 % 0x40, cp / 0x40 % 0x40, cp % 0x40);
    }
  }

  lemma OneOctet(w: nat)
    requires w < 0x80
    ensures Utf8Value([w as char]) == w
  {
  }

  // ---------------------------------------------------------------- decoding

  /** parse_hex4: the value of four hexadecimal digits, 0 if one of them is not. */
  function Hex4(b: string, p: nat): (h: nat)
    requires p + 4 <= |b|
    ensures h < 0x1_0000
  {
    match (HexValue(b[p]), HexValue(b[p + 1]), HexValue(b[p + 2]), HexValue(b[p + 3]))
    case (Some(w), Some(x), Some(y), Some(z)) => w * 0x1000 + x * 0x100 + y * 0x10 + z
    case _ => 0
  }

  /** utf16_literal_to_utf8 at p: the octets and the number of input bytes taken; None is failure. */
  function Literal(b: string, p: nat, end: nat): (r: Option<(string, nat)>)
    requires p < end <= |b|
    ensures r.Some? ==> (r.value.1 == 6 && |r.value.0| <= 3) || (r.value.1 == 12 && |r.value.0| <= 4)
    ensures r.Some? ==> 1 <= |r.value.0| && p + r.value.1 <= end
  {
    if end - p < 6 then None
    else
      var first := Hex4(b, p + 2);
      if 0xdc00 <= first <= 0xdfff then None
      else if 0xd800 <= first <= 0xdbff then
        if end - (p + 6) < 6 then None
        else if b[p + 6] != '\\' || b[p + 7] != 'u' then None
        else
          var second := Hex4(b, p + 8);
          if second < 0xdc00 || second > 0xdfff then None
          else Some((Utf8(0x1_0000 + first % 0x400 * 0x400 + second % 0x400), 12))
      else Some((Utf8(first), 6))
  }

  /** The letter after a backslash, other than u. */
  function Unescape(c: char): Option<char> {
    if c == 'b' then Some('\U{8}')
    else if c == 'f' then Some('\U{c}')
    else if c == 'n' then Some('\n')
    else if c == 'r' then Some('\r')
    else if c == 't' then Some('\t')
    else if c == '\"' || c == '\\' || c == '/' then Some(c)
    else None
  }

  /** One step of the second pass: octets written and bytes taken. */
  function Take(b: string, p: nat, end: nat): (r: Option<(string, nat)>)
    requires p < end < |b|
    ensures r.Some? ==> 1 <= |r.value.0| && 1 <= r.value.1
  {
    if b[p] != '\\' then Some(([b[p]], 1))
    else if b[p + 1] == 'u' then Literal(b, p, end)
    else match Unescape(b[p + 1])
      case Some(c) => Some(([c], 2))
      case None => None
  }

  /** The second pass from p to the closing quote at end. */
  function Decode(b: string, p: nat, end: nat): Option<string>
    requires end < |b|
    decreases if p < end then end - p else 0
  {
    if p >= end then Some([])
    else match Take(b, p, end)
      case None => None
      case Some((octets, taken)) =>
        match Decode(b, p + taken, end)
        case None => None
        case Some(rest) => Some(octets + rest)
  }

  /** The first pass: where the literal ends, None if it does not. */
  function ClosingQuote(b: string, p: nat): (e: Option<nat>)
    ensures e.Some? ==> p <= e.value < |b| && b[e.value] == '\"'
    decreases |b| - p
  {
    if p >= |b| then None
    else if b[p] == '\"' then Some(p)
    else if b[p] != '\\' then ClosingQuote(b, p + 1)
    else if p + 1 >= |b| then None
    else ClosingQuote(b, p + 2)
  }

  /** How many plain bytes and escapes the first pass counts from p to e. */
  function Units(b: string, p: nat, e: nat): nat
    requires e <= |b|
    decreases e - p
  {
    if p >= e then 0
    else if b[p] != '\\' then 1 + Units(b, p + 1, e)
    else 1 + Units(b, p + 2, e)
  }

  // ---------------------------------------------------------------- the first pass allocates enough

  /** How far ahead of the count the second pass may be at p: nothing at a boundary of the first pass,
      one byte in the middle of what the first pass took for an escape. */
  ghost function Room(b: string, p: nat, end: nat, mid: bool): nat
    requires end <= |b|
  {
    if mid then Units(b, p + 1, end) + 1 else Units(b, p, end)
  }

  /** The first pass, entered at p or one byte later, hits end exactly. */
  ghost predicate Aligned(b: string, p: nat, end: nat)
    requires end <= |b|
    decreases end - p
  {
    if p >= end then p == end
    else if b[p] != '\\' then Aligned(b, p + 1, end)
    else Aligned(b, p + 2, end)
  }

  lemma {:induction false} ClosingQuoteAligned(b: string, p: nat)
    requires ClosingQuote(b, p).Some?
    ensures Aligned(b, p, ClosingQuote(b, p).value)
    decreases |b| - p
  {
    if b[p] != '\"' {
      ClosingQuoteAligned(b, if b[p] != '\\' then p + 1 else p + 2);
    }
  }

  ghost predicate At(b: string, p: nat, end: nat, mid: bool)
    requires end <= |b|
  {
    if mid then Aligned(b, p + 1, end) else Aligned(b, p, end)
  }

  /** From p the first pass takes k bytes in at least m units; it may stop one byte beyond p + k. */
  lemma {:induction false} FirstPassRuns(b: string, p: nat, end: nat, mid: bool, k: nat) returns (mid': bool)
    requires end <= |b| && p + k <= end && At(b, p, end, mid)
    ensures At(b, p + k, end, mid')
    ensures Room(b, p, end, mid) >= Room(b, p + k, end, mid') + k / 2
    ensures k >= 1 && mid ==> Room(b, p, end, mid) >= Room(b, p + k, end, mid') + (k + 1) / 2
    decreases k
  {
    if k == 0 {
      mid' := mid;
    } else if mid {
      mid' := FirstPassRuns(b, p + 1, end, false, k - 1);
    } else if b[p] != '\\' {
      mid' := FirstPassRuns(b, p + 1, end, false, k - 1);
    } else if k == 1 {
      mid' := true;
    } else {
      mid' := FirstPassRuns(b, p + 2, end, false, k - 2);
    }
  }

  lemma {:induction false} SkipPlain(b: string, p: nat, end: nat, k: nat)
    requires end <= |b| && p + k <= end && Aligned(b, p, end)
    requires forall i :: p <= i < p + k ==> b[i] != '\\'
    ensures Aligned(b, p + k, end) && Units(b, p, end) == k + Units(b, p + k, end)
    decreases k
  {
    if k > 0 {
      SkipPlain(b, p + 1, end, k - 1);
    }
  }

  lemma HexDigitsArePlain(b: string, p: nat)
    requires p + 4 <= |b| && Hex4(b, p) != 0
    ensures forall i :: p <= i < p + 4 ==> b[i] != '\\'
  {
    forall i | p <= i < p + 4 ensures b[i] != '\\' {
      assert HexValue(b[i]).Some?;
    }
  }

  /** The \u escapes: they take at least as many units as they write octets. */
  lemma LiteralFits(b: string, p: nat, end: nat, mid: bool) returns (mid': bool)
    requires p < end < |b| && At(b, p, end, mid) && b[p] == '\\' && b[p + 1] == 'u' && Literal(b, p, end).Some?
    ensures var (octets, taken) := Literal(b, p, end).value;
      At(b, p + taken, end, mid') && Room(b, p, end, mid) >= |octets| + Room(b, p + taken, end, mid')
  {
    hide Hex4;
    var (octets, taken) := Literal(b, p, end).value;
    var first := Hex4(b, p + 2);
    if first == 0 {
      assert |octets| == 1;
      mid' := FirstPassRuns(b, p, end, mid, 6);
    } else {
      HexDigitsArePlain(b, p + 2);
      assert Aligned(b, p + 2, end) && Room(b, p, end, mid) >= 1 + Units(b, p + 2, end);
      SkipPlain(b, p + 2, end, 4);
      mid' := false;
      if taken == 12 {
        HexDigitsArePlain(b, p + 8);
        assert Aligned(b, p + 8, end) && Units(b, p + 6, end) == 1 + Units(b, p + 8, end);
        SkipPlain(b, p + 8, end, 4);
      }
    }
  }

  /** Every step of the second pass stays within what the first pass counted, in step or not. */
  lemma TakeFits(b: string, p: nat, end: nat, mid: bool) returns (mid': bool)
    requires p < end < |b| && At(b, p, end, mid) && Take(b, p, end).Some?
    ensures var (octets, taken) := Take(b, p, end).value;
      if p + taken <= end
      then At(b, p + taken, end, mid') && Room(b, p, end, mid) >= |octets| + Room(b, p + taken, end, mid')
      else Room(b, p, end, mid) >= |octets|
  {
    mid' := false;
    if b[p] != '\\' {
    } else if b[p + 1] == 'u' {
      mid' := LiteralFits(b, p, end, mid);
    } else if p + 2 <= end {
      mid' := FirstPassRuns(b, p, end, mid, 2);
    }
  }

  // ---------------------------------------------------------------- well-formed literals

  /** The pieces the second pass takes a string literal for.  Digits may be any four bytes, 0 if one is no digit; then
      it can run out of step with the first pass, meet quotes as bytes, and be left with a backslash that dangles in
      front of the closing quote. */
  datatype Piece = Byte(c: char) | Short(letter: char) | Unit(hex: string) | Pair(high: string, low: string) | Dangling
  {
    predicate Taken() {
      match this
      case Byte(c) => c != '\\'
      case Short(l) => Unescape(l).Some?
      case Unit(h) => |h| == 4 && !(0xd800 <= Hex4(h, 0) <= 0xdfff)
      case Pair(h, l) =>
        && |h| == 4 && |l| == 4 && 0xd800 <= Hex4(h, 0) <= 0xdbff && 0xdc00 <= Hex4(l, 0) <= 0xdfff
      case Dangling => true
    }

    /** The pieces of RFC 8259 section 7. */
    predicate Ok() {
      Taken() && !Dangling? && (Byte? ==> c != '\"') && (Unit? ==> FourDigits(hex))
    }

    function Source(): (s: string)
      requires Taken()
      ensures |s| >= 1
    {
      match this
      case Byte(c) => [c]
      case Short(l) => ['\\', l]
      case Unit(h) => ['\\', 'u'] + h
      case Pair(h, l) => ['\\', 'u'] + h + ['\\', 'u'] + l
      case Dangling => ['\\']
    }

    /** The octets the piece stands for. */
    function Meaning(): string
      requires Taken()
    {
      match this
      case Byte(c) => [c]
      case Short(l) => [Unescape(l).value]
      case Unit(h) => Utf8(Hex4(h, 0))
      case Pair(h, l) => Utf8(0x1_0000 + (Hex4(h, 0) - 0xd800) * 0x400 + (Hex4(l, 0) - 0xdc00))
      case Dangling => ['\"']
    }
  }

  predicate FourDigits(h: string)
    requires |h| == 4
  {
    forall i :: 0 <= i < 4 ==> HexValue(h[i]).Some?
  }

  predicate AllTaken(ps: seq<Piece>) {
    forall i :: 0 <= i < |ps| ==> ps[i].Taken() && (ps[i].Dangling? ==> i == |ps| - 1)
  }

  predicate AllOk(ps: seq<Piece>) {
    forall i :: 0 <= i < |ps| ==> ps[i].Ok()
  }

  function Sources(ps: seq<Piece>): string
    requires AllTaken(ps)
  {
    if ps == [] then [] else ps[0].Source() + Sources(ps[1..])
  }

  function Meanings(ps: seq<Piece>): string
    requires AllTaken(ps)
  {
    if ps == [] then [] else ps[0].Meaning() + Meanings(ps[1..])
  }

  /** What the first pass runs over: bytes that are no quotes, and backslashes each with the byte behind it. */
  predicate Scans(s: string) {
    s == [] || (s[0] != '\"' && if s[0] == '\\' then |s| >= 2 && Scans(s[2..]) else Scans(s[1..]))
  }

  /** s stands in b from p on. */
  ghost predicate Stands(b: string, p: nat, s: string) {
    p + |s| <= |b| && b[p..p + |s|] == s
  }

  lemma StandsParts(b: string, p: nat, s: string, t: string)
    requires Stands(b, p, s + t)
    ensures Stands(b, p, s) && Stands(b, p + |s|, t)
  {
    assert b[p..p + |s|] == (s + t)[..|s|] == s;
    assert b[p + |s|..p + |s| + |t|] == (s + t)[|s|..] == t;
  }

  lemma Hex4At(b: string, p: nat, h: string)
    requires |h| == 4 && Stands(b, p, h)
    ensures Hex4(b, p) == Hex4(h, 0)
  {
    FourAt(b, p, h);
  }

  lemma FourAt(b: string, p: nat, h: string)
    requires |h| == 4 && Stands(b, p, h)
    ensures b[p] == h[0] && b[p + 1] == h[1] && b[p + 2] == h[2] && b[p + 3] == h[3]
  {
    var t := b[p..p + 4];
    assert b[p] == t[0] && b[p + 1] == t[1] && b[p + 2] == t[2] && b[p + 3] == t[3];
  }

  lemma ScanEscape(b: string, p: nat, c: char)
    requires Stands(b, p, ['\\', c])
    ensures b[p] == '\\' && b[p + 1] == c
  {
    assert b[p] == b[p..p + 2][0] && b[p + 1] == b[p..p + 2][1];
  }

  /** The first pass stops at the first quote it does not run over. */
  lemma {:induction false} ScansClosing(b: string, p: nat, s: string)
    requires Scans(s) && Stands(b, p, s) && p + |s| < |b| && b[p + |s|] == '\"'
    ensures ClosingQuote(b, p) == Some(p + |s|)
    decreases |s|
  {
    if s != [] {
      var n := if s[0] == '\\' then 2 else 1;
      assert s == s[..n] + s[n..];
      StandsParts(b, p, s[..n], s[n..]);
      assert b[p] == b[p..p + n][0];
      ScansClosing(b, p + n, s[n..]);
    }
  }

  lemma {:induction false} ScansConcat(s: string, t: string)
    requires Scans(s) && Scans(t)
    ensures Scans(s + t)
    decreases |s|
  {
    if s == [] {
      assert s + t == t;
    } else {
      var n := if s[0] == '\\' then 2 else 1;
      assert (s + t)[n..] == s[n..] + t;
      ScansConcat(s[n..], t);
    }
  }

  /** A digit is neither a quote nor a backslash, so the first pass takes it as one byte. */
  lemma DigitsScan(h: string)
    requires |h| == 4 && FourDigits(h)
    ensures Scans(h)
  {
    assert HexValue(h[0]).Some? && HexValue(h[1]).Some? && HexValue(h[2]).Some? && HexValue(h[3]).Some?;
    assert h == [h[0], h[1], h[2], h[3]];
    assert h[1..] == [h[1], h[2], h[3]] && h[1..][1..] == [h[2], h[3]] && h[1..][1..][1..] == [h[3]];
    assert Scans(h[1..][1..][1..]);
  }

  lemma EscapeScans(c: char)
    ensures Scans(['\\', c])
  {
    assert ['\\', c][2..] == [];
  }

  lemma ByteScans(c: char)
    requires c != '\"' && c != '\\'
    ensures Scans([c])
  {
    assert [c][1..] == [];
  }

  lemma SurrogateDigits(h: string)
    requires |h| == 4 && Hex4(h, 0) != 0
    ensures FourDigits(h)
  {
  }

  lemma OkScans(x: Piece)
    requires x.Ok()
    ensures Scans(x.Source())
  {
    hide Scans, Hex4, FourDigits;
    match x
    case Byte(c) => ByteScans(c);
    case Short(l) => EscapeScans(l);
    case Unit(h) =>
      EscapeScans('u');
      DigitsScan(h);
      ScansConcat(['\\', 'u'], h);
    case Pair(h, l) =>
      EscapeScans('u');
      SurrogateDigits(h);
      SurrogateDigits(l);
      DigitsScan(h);
      DigitsScan(l);
      ScansConcat(['\\', 'u'], h);
      ScansConcat(['\\', 'u'] + h, ['\\', 'u']);
      ScansConcat(['\\', 'u'] + h + ['\\', 'u'], l);
  }

  lemma NothingScans()
    ensures Scans([])
  {
  }

  lemma {:induction false} AllOkScans(ps: seq<Piece>)
    requires AllOk(ps)
    ensures AllTaken(ps) && Scans(Sources(ps))
    decreases |ps|
  {
    hide Scans, Piece.Source;
    if ps == [] {
      NothingScans();
    } else {
      AllOkScans(ps[1..]);
      OkScans(ps[0]);
      ScansConcat(ps[0].Source(), Sources(ps[1..]));
    }
  }

  lemma TakeUnit(b: string, p: nat, end: nat, h: string)
    requires Unit(h).Taken() && Stands(b, p, Unit(h).Source()) && p + 6 <= end < |b|
    ensures Take(b, p, end) == Some((Utf8(Hex4(h, 0)), 6))
  {
    hide Utf8, Hex4;
    StandsParts(b, p, ['\\', 'u'], h);
    ScanEscape(b, p, 'u');
    Hex4At(b, p + 2, h);
  }

  lemma PairLiteral(b: string, p: nat, end: nat, h: string, l: string)
    requires Pair(h, l).Taken() && p + 12 <= end < |b| && b[p + 6] == '\\' && b[p + 7] == 'u'
    requires Hex4(b, p + 2) == Hex4(h, 0) && Hex4(b, p + 8) == Hex4(l, 0)
    ensures Literal(b, p, end) == Some((Pair(h, l).Meaning(), 12))
  {
    hide Utf8, Hex4;
    LowBits(Hex4(h, 0), 0xd800);
    LowBits(Hex4(l, 0), 0xdc00);
  }

  lemma TakePair(b: string, p: nat, end: nat, h: string, l: string)
    requires Pair(h, l).Taken() && Stands(b, p, Pair(h, l).Source()) && p + 12 <= end < |b|
    ensures Take(b, p, end) == Some((Pair(h, l).Meaning(), 12))
  {
    hide Utf8, Hex4, Literal, Piece.Meaning, Stands;
    StandsParts(b, p, ['\\', 'u'] + h + ['\\', 'u'], l);
    StandsParts(b, p, ['\\', 'u'] + h, ['\\', 'u']);
    StandsParts(b, p, ['\\', 'u'], h);
    ScanEscape(b, p, 'u');
    Hex4At(b, p + 2, h);
    ScanEscape(b, p + 6, 'u');
    Hex4At(b, p + 8, l);
    PairLiteral(b, p, end, h, l);
  }

  lemma LowBits(n: nat, base: nat)
    requires base % 0x400 == 0 && base <= n < base + 0x400
    ensures n % 0x400 == n - base
  {
  }

  /** The second pass turns a piece into its meaning. */
  lemma TakePiece(b: string, p: nat, end: nat, x: Piece)
    requires x.Taken() && !x.Dangling? && Stands(b, p, x.Source()) && p + |x.Source()| <= end < |b|
    ensures Take(b, p, end) == Some((x.Meaning(), |x.Source()|))
  {
    match x
    case Byte(c) => assert b[p] == b[p..p + 1][0];
    case Short(l) => ScanEscape(b, p, l);
    case Unit(h) => TakeUnit(b, p, end, h);
    case Pair(h, l) => TakePair(b, p, end, h, l);
  }

  lemma DecodeStep(b: string, p: nat, end: nat, octets: string, taken: nat, rest: string)
    requires p + taken <= end < |b| && p < end && Take(b, p, end) == Some((octets, taken))
    requires Decode(b, p + taken, end) == Some(rest)
    ensures Decode(b, p, end) == Some(octets + rest)
  {
  }

  lemma NothingToDecode(b: string, p: nat)
    requires p < |b|
    ensures Decode(b, p, p) == Some([])
  {
  }

  lemma SourcesAndMeanings(ps: seq<Piece>)
    requires ps != [] && AllTaken(ps)
    ensures AllTaken(ps[1..])
    ensures Sources(ps) == ps[0].Source() + Sources(ps[1..])
    ensures Meanings(ps) == ps[0].Meaning() + Meanings(ps[1..])
  {
  }

  lemma NoPieces()
    ensures Sources([]) == "" && Meanings([]) == ""
  {
  }

  /** A backslash in front of the closing quote takes it along. */
  lemma DanglingDecodes(b: string, p: nat)
    requires p + 1 < |b| && b[p] == '\\' && b[p + 1] == '\"'
    ensures Decode(b, p, p + 1) == Some(['\"'])
  {
    assert Take(b, p, p + 1) == Some((['\"'], 2));
    assert Decode(b, p + 2, p + 1) == Some([]);
    var nothing: string := [];
    assert ['\"'] + nothing == ['\"'];
  }

  /** The second pass turns every piece into its meaning. */
  lemma {:induction false} PiecesDecode(b: string, p: nat, ps: seq<Piece>)
    requires AllTaken(ps)
    requires Stands(b, p, Sources(ps)) && p + |Sources(ps)| < |b| && b[p + |Sources(ps)|] == '\"'
    ensures Decode(b, p, p + |Sources(ps)|) == Some(Meanings(ps))
    decreases |ps|
  {
    hide Take, Decode, Stands, Sources, Meanings, Piece.Taken;
    if ps == [] {
      NoPieces();
      NothingToDecode(b, p);
    } else {
      var x, rest := ps[0], ps[1..];
      SourcesAndMeanings(ps);
      StandsParts(b, p, x.Source(), Sources(rest));
      if x.Dangling? {
        assert rest == [];
        NoPieces();
        assert Sources(ps) == ['\\'] && Meanings(ps) == ['\"'];
        JustBackslash(b, p);
        DanglingDecodes(b, p);
      } else {
        TakePiece(b, p, p + |Sources(ps)|, x);
        PiecesDecode(b, p + |x.Source()|, rest);
        DecodeStep(b, p, p + |Sources(ps)|, x.Meaning(), |x.Source()|, Meanings(rest));
      }
    }
  }

  lemma JustBackslash(b: string, p: nat)
    requires Stands(b, p, ['\\'])
    ensures b[p] == '\\'
  {
    assert b[p] == b[p..p + 1][0];
  }

  /** A well-formed literal is delimited by its closing quote and decodes to what its pieces mean:
      each escape and each surrogate pair becomes the UTF-8 of its code point. */
  lemma WellFormedDecodes(b: string, p: nat, ps: seq<Piece>)
    requires AllOk(ps)
    requires Stands(b, p, Sources(ps)) && p + |Sources(ps)| < |b| && b[p + |Sources(ps)|] == '\"'
    ensures ClosingQuote(b, p) == Some(p + |Sources(ps)|)
    ensures Decode(b, p, p + |Sources(ps)|) == Some(Meanings(ps))
  {
    hide Decode, ClosingQuote, Stands, Sources, Meanings, Scans, Piece.Taken, Piece.Ok;
    AllOkScans(ps);
    ScansClosing(b, p, Sources(ps));
    PiecesDecode(b, p, ps);
  }

  // ---------------------------------------------------------------- escaping is undone

  function PieceOf(c: char): (x: Piece)
    requires c as nat < 0x100
    ensures x.Ok() && x.Source() == EscapeChar(c) && x.Meaning() == [c]
  {
    if Plain(c) then Byte(c)
    else match ShortEscape(c)
      case Some(l) => Short(l)
      case None =>
        var h := ['0', '0', HexDigit(c as nat / 16 % 16), HexDigit(c as nat % 16)];
        assert Hex4(h, 0) == c as nat;
        Unit(h)
  }

  predicate Bytes(s: string) {
    forall i :: 0 <= i < |s| ==> s[i] as nat < 0x100
  }

  function PiecesOf(s: string): (ps: seq<Piece>)
    requires Bytes(s)
    ensures |ps| == |s| && forall i :: 0 <= i < |s| ==> ps[i] == PieceOf(s[i])
  {
    seq(|s|, i requires 0 <= i < |s| => PieceOf(s[i]))
  }

  lemma {:induction false} PiecesMean(s: string)
    requires Bytes(s)
    ensures AllOk(PiecesOf(s)) && AllTaken(PiecesOf(s))
    ensures Sources(PiecesOf(s)) == Escape(s) && Meanings(PiecesOf(s)) == s
    decreases |s|
  {
    hide Sources, Meanings, PieceOf, EscapeChar;
    var ps := PiecesOf(s);
    if s == [] {
      assert ps == [];
      NoPieces();
    } else {
      PiecesMean(s[1..]);
      assert ps[1..] == PiecesOf(s[1..]);
      SourcesAndMeanings(ps);
      assert s == [s[0]] + s[1..];
    }
  }

  /** What print_string_ptr writes, parse_string reads back. */
  lemma EscapeDecodes(b: string, p: nat, s: string)
    requires Bytes(s) && Stands(b, p, Escape(s)) && p + |Escape(s)| < |b| && b[p + |Escape(s)|] == '\"'
    ensures ClosingQuote(b, p) == Some(p + |Escape(s)|)
    ensures Decode(b, p, p + |Escape(s)|) == Some(s)
  {
    hide Decode, ClosingQuote, Sources, Meanings, PiecesOf, Piece.Taken, Piece.Ok, Stands, Escape;
    PiecesMean(s);
    WellFormedDecodes(b, p, PiecesOf(s));
  }
}
