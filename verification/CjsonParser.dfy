/** The parser of cJSON as it runs: an offset and a depth that move through the text, and a string decoder
    that sizes its output in a first pass and fills it in a second. */
module CjsonParser {
  import opened Wrappers
  import opened CjsonKeys
  import opened CjsonString
  import opened CjsonText
  import opened CjsonRoundTrip
  import opened CjsonBits

  // ---------------------------------------------------------------- reading and encoding a code point

  /** The digits before i, as a number. */
  function HexUpTo(b: string, p: nat, i: nat): (h: Option<nat>)
    requires p + i <= |b|
  {
    if i == 0 then Some(0)
    else match (HexUpTo(b, p, i - 1), HexValue(b[p + i - 1]))
      case (Some(h), Some(d)) => Some(16 * h + d)
      case _ => None
  }

  lemma HexIsUpTo(b: string, p: nat)
    requires p + 4 <= |b|
    ensures Hex4(b, p) == if HexUpTo(b, p, 4).Some? then HexUpTo(b, p, 4).value else 0
  {
    hide HexValue;
    assert HexUpTo(b, p, 0) == Some(0);
    assert HexUpTo(b, p, 1) == HexValue(b[p]);
    assert HexUpTo(b, p, 2).Some? <==> HexUpTo(b, p, 1).Some? && HexValue(b[p + 1]).Some?;
    assert HexUpTo(b, p, 3).Some? <==> HexUpTo(b, p, 2).Some? && HexValue(b[p + 2]).Some?;
  }

  lemma {:induction false} HexFails(b: string, p: nat, i: nat, n: nat)
    requires i <= n && p + n <= |b| && HexUpTo(b, p, i) == None
    ensures HexUpTo(b, p, n) == None
    decreases n
  {
    if i < n {
      HexFails(b, p, i, n - 1);
    }
  }

  /** parse_hex4: the word is shifted after every digit but the last. */
  method ParseHex4(b: string, p: nat) returns (h: bv32)
    requires p + 4 <= |b|
    ensures AsNat(h) == Hex4(b, p)
  {
    hide AsNat, HexUpTo, HexValue, Hex4, Plus, Nibble;
    HexIsUpTo(b, p);
    HexNone(b, p);
    h := 0;
    var i := 0;
    ghost var read: bv32 := 0;
    DigitNumber(0);
    NibbleZero();
    while i < 4
      invariant 0 <= i <= 4
      invariant HexUpTo(b, p, i) == Some(AsNat(read)) && h == if i < 4 then Nibble(read) else read
      invariant i < 4 ==> read < HexBound(i)
    {
      HexStep(b, p, i);
      HexCases(b[p + i]);
      var c := b[p + i];
      var d: nat;
      if '0' <= c <= '9' {
        d := c as nat - '0' as nat;
      } else if 'A' <= c <= 'F' {
        d := 10 + c as nat - 'A' as nat;
      } else if 'a' <= c <= 'f' {
        d := 10 + c as nat - 'a' as nat;
      } else {
        HexFails(b, p, i + 1, 4);
        return 0;
      }
      DigitNumber(d);
      HexBounds(i);
      NextDigit(read, Digit(d));
      if i < 3 {
        DigitFits(read, Digit(d), i);
      }
      h := Plus(h, Digit(d));
      read := h;
      if i < 3 {
        h := Nibble(h);
      }
      i := i + 1;
    }
  }

  lemma HexCases(c: char)
    ensures '0' <= c <= '9' ==> HexValue(c) == Some(c as nat - '0' as nat)
    ensures 'A' <= c <= 'F' ==> HexValue(c) == Some(10 + c as nat - 'A' as nat)
    ensures 'a' <= c <= 'f' ==> HexValue(c) == Some(10 + c as nat - 'a' as nat)
    ensures !('0' <= c <= '9') && !('A' <= c <= 'F') && !('a' <= c <= 'f') ==> HexValue(c) == None
  {
  }

  lemma HexNone(b: string, p: nat)
    requires p <= |b|
    ensures HexUpTo(b, p, 0) == Some(0)
  {
  }

  lemma HexStep(b: string, p: nat, i: nat)
    requires p + i < |b|
    ensures HexValue(b[p + i]).Some? ==> HexValue(b[p + i]).value < 16
    ensures HexUpTo(b, p, i).Some? ==>
      HexUpTo(b, p, i + 1) ==
      if HexValue(b[p + i]).Some? then Some(16 * HexUpTo(b, p, i).value + HexValue(b[p + i]).value) else None
  {
  }

  /** The loop of utf16_literal_to_utf8: last octet first, six bits at a time. */
  method EncodeUtf8(output: array<char>, at: nat, code: bv32) returns (next: nat)
    requires AsNat(code) < 0x11_0000 && at + |Utf8(AsNat(code))| <= output.Length
    modifies output
    ensures next == at + |Utf8(AsNat(code))|
    ensures output[..next] == old(output[..at]) + Utf8(AsNat(code))
  {
    hide Utf8, Shifted, AsNat, Continuation, AboveSix, First, Ascii;
    ghost var c := AsNat(code);
    Utf8Parts(c);
    Shift(c, 0);
    Bounds(code);
    var length: nat, mark: bv32 := 1, 0;
    if code >= 0x1_0000 {
      length, mark := 4, 0xf0;
    } else if code >= 0x800 {
      length, mark := 3, 0xe0;
    } else if code >= 0x80 {
      length, mark := 2, 0xc0;
    }
    var position, rest := length - 1, code;
    while position > 0
      invariant 0 <= position < length
      invariant AsNat(rest) == Shifted(c, length - 1 - position)
      invariant output[..at] == old(output[..at])
      invariant forall k :: position < k < length ==> output[at + k] == Utf8(c)[k]
    {
      Shift(c, length - 1 - position);
      OctetBits(rest);
      output[at + position] := AsNat(Continuation(rest)) as char;
      rest := AboveSix(rest);
      position := position - 1;
    }
    FirstNumber(rest);
    output[at] := if length > 1 then AsNat(First(rest, mark)) as char else AsNat(Ascii(rest)) as char;
    next := at + length;
    assert forall k :: 0 <= k < length ==> output[at..next][k] == output[at + k];
    assert output[at..next] == Utf8(c);
    assert output[..next] == output[..at] + output[at..next];
  }

  function Shifted(c: nat, k: nat): nat {
    if k == 0 then c else Shifted(c, k - 1) / 0x40
  }

  lemma Shift(c: nat, k: nat)
    ensures Shifted(c, 0) == c && Shifted(c, k + 1) == Shifted(c, k) / 0x40
  {
  }

  lemma Utf8Parts(c: nat)
    requires c < 0x11_0000
    ensures |Utf8(c)| == if c < 0x80 then 1 else if c < 0x800 then 2 else if c < 0x1_0000 then 3 else 4
    ensures forall k :: 1 <= k < |Utf8(c)| ==> Utf8(c)[k] == (0x80 + Shifted(c, |Utf8(c)| - 1 - k) % 0x40) as char
    ensures c < 0x80 ==> Utf8(c)[0] == Shifted(c, 0) as char
    ensures 0x80 <= c < 0x800 ==> Shifted(c, 1) < 0x20 && Utf8(c)[0] == (0xc0 + Shifted(c, 1)) as char
    ensures 0x800 <= c < 0x1_0000 ==> Shifted(c, 2) < 0x10 && Utf8(c)[0] == (0xe0 + Shifted(c, 2)) as char
    ensures 0x1_0000 <= c ==> Shifted(c, 3) < 8 && Utf8(c)[0] == (0xf0 + Shifted(c, 3)) as char
  {
    assert Shifted(c, 0) == c;
    assert Shifted(c, 1) == c / 0x40;
    assert Shifted(c, 2) == c / 0x1000;
    assert Shifted(c, 3) == c / 0x4_0000;
  }

  // ---------------------------------------------------------------- the second pass

  lemma DecodeStep(b: string, p: nat, end: nat)
    requires p < end < |b|
    ensures Take(b, p, end).None? ==> Decode(b, p, end) == None
    ensures Take(b, p, end).Some? ==>
      Decode(b, p, end) == Onto(Take(b, p, end).value.0, Decode(b, p + Take(b, p, end).value.1, end))
  {
  }

  /** One round of the second pass: the octets go to the output, the input pointer moves on.  On failure the
      output may have been touched, but never beyond what was left of it. */
  method TakeInto(b: string, p: nat, end: nat, output: array<char>, n: nat) returns (r: Option<(nat, nat)>)
    requires p < end < |b| && n <= output.Length
    requires Take(b, p, end).Some? ==> n + |Take(b, p, end).value.0| <= output.Length
    modifies output
    ensures r.Some? <==> Take(b, p, end).Some?
    ensures r.Some? ==>
      && r.value.0 == p + Take(b, p, end).value.1 && r.value.1 == n + |Take(b, p, end).value.0|
      && output[..r.value.1] == old(output[..n]) + Take(b, p, end).value.0
  {
    hide Utf8, Hex4, AsNat, Paired;
    if b[p] != '\\' {
      output[n] := b[p];
      return Some((p + 1, n + 1));
    }
    if b[p + 1] == 'u' {
      if end - p < 6 {
        return None;
      }
      var first := ParseHex4(b, p + 2);
      SurrogateBounds(first);
      if 0xdc00 <= first <= 0xdfff {
        return None;
      }
      var codepoint, taken := first, 6;
      if 0xd800 <= first <= 0xdbff {
        if end - (p + 6) < 6 || b[p + 6] != '\\' || b[p + 7] != 'u' {
          return None;
        }
        var second := ParseHex4(b, p + 8);
        SurrogateBounds(second);
        if second < 0xdc00 || second > 0xdfff {
          return None;
        }
        PairedNumber(first, second);
        codepoint, taken := Paired(first, second), 12;
      }
      var next := EncodeUtf8(output, n, codepoint);
      return Some((p + taken, next));
    }
    match b[p + 1] {
      case 'b' => output[n] := '\U{8}';
      case 'f' => output[n] := '\U{c}';
      case 'n' => output[n] := '\n';
      case 'r' => output[n] := '\r';
      case 't' => output[n] := '\t';
      case '\"' => output[n] := '\"';
      case '\\' => output[n] := '\\';
      case '/' => output[n] := '/';
      case _ => return None;
    }
    return Some((p + 2, n + 1));
  }

  /** How much of the count is left for the second pass when its input pointer is at p. */
  ghost function Left(b: string, p: nat, end: nat, mid: bool): nat
    requires end <= |b|
  {
    if p < end then Room(b, p, end, mid) else 0
  }

  lemma RoundFits(b: string, p: nat, end: nat, mid: bool) returns (mid': bool)
    requires p < end < |b| && At(b, p, end, mid) && Take(b, p, end).Some?
    ensures var (octets, taken) := Take(b, p, end).value;
      && (p + taken < end ==> At(b, p + taken, end, mid'))
      && Left(b, p, end, mid) >= |octets| + Left(b, p + taken, end, mid')
  {
    hide Take, Room, At;
    mid' := TakeFits(b, p, end, mid);
  }

  /** The second pass: it fills the array the first pass asked for and never writes outside it. */
  method DecodeInto(b: string, start: nat, end: nat, output: array<char>) returns (r: Option<nat>, stop: nat)
    requires start <= end < |b| && Aligned(b, start, end) && output.Length > Units(b, start, end)
    modifies output
    ensures stop <= end || r.Some?
    ensures r.None? ==> Decode(b, start, end) == None
    ensures r.Some? ==> r.value < output.Length && Decode(b, start, end) == Some(output[..r.value])
  {
    hide Decode, Take, Room, At, Units, Aligned;
    var p: nat, n: nat := start, 0;
    ghost var mid := false;
    assert At(b, start, end, false) && Room(b, start, end, false) == Units(b, start, end) by {
      StartsAligned(b, start, end);
    }
    assert output[..0] == [];
    OntoNothing(Decode(b, start, end));
    while p < end
      invariant n <= output.Length && (p < end ==> At(b, p, end, mid))
      invariant n + Left(b, p, end, mid) <= Units(b, start, end)
      invariant Decode(b, start, end) == Onto(output[..n], Decode(b, p, end))
      decreases end - p
    {
      DecodeStep(b, p, end);
      ghost var was := output[..n];
      if Take(b, p, end).Some? {
        ghost var octets := Take(b, p, end).value.0;
        mid := RoundFits(b, p, end, mid);
        OntoTwice(was, octets, Decode(b, p + Take(b, p, end).value.1, end));
      }
      var next := TakeInto(b, p, end, output, n);
      if next.None? {
        return None, p;
      }
      p, n := next.value.0, next.value.1;
    }
    DecodeEnds(b, p, end);
    return Some(n), p;
  }

  lemma StartsAligned(b: string, p: nat, end: nat)
    requires end <= |b| && Aligned(b, p, end)
    ensures At(b, p, end, false) && Room(b, p, end, false) == Units(b, p, end)
  {
  }

  lemma DecodeEnds(b: string, p: nat, end: nat)
    requires end <= p && end < |b|
    ensures Decode(b, p, end) == Some([])
    ensures forall s :: Onto(s, Decode(b, p, end)) == Some(s)
  {
    forall s ensures Onto(s, Some([])) == Some(s) {
      assert s + [] == s;
    }
  }

  // ---------------------------------------------------------------- the parser

  lemma CStringStops(s: string, t: string)
    requires |s| < |t| && t[..|s|] == s && t[|s|] == '\0'
    ensures CString(t) == CString(s)
    decreases |s|
  {
    if s != [] && s[0] != '\0' {
      assert t[0] == t[..|s|][0];
      assert t[1..][..|s| - 1] == t[..|s|][1..];
      CStringStops(s[1..], t[1..]);
    }
  }

  /** What the array loop has left to do: the elements read so far stand before the rest. */
  function Before<T>(read: seq<T>, r: Parsed<seq<T>>): Parsed<seq<T>> {
    match r
    case Fail => Fail
    case Done(rest, next) => Done(read + rest, next)
  }

  lemma BeforeTwice<T>(s: seq<T>, v: T, r: Parsed<seq<T>>)
    ensures Before(s, Before([v], r)) == Before(s + [v], r)
    ensures Before(s, Done([v], 0)).value == s + [v]
  {
    if r.Done? {
      assert s + ([v] + r.value) == s + [v] + r.value;
    }
  }

  lemma BeforeNone<T>(r: Parsed<seq<T>>)
    ensures Before([], r) == r
  {
    assert r.Done? ==> [] + r.value == r.value;
  }

  /** One round of parse_array, spelled out. */
  lemma ItemsRound(b: string, p: nat, depth: nat, read: seq<Json>)
    requires Terminated(b) && p < |b| - 1
    ensures var r := ParseValue(b, Skip(b, p + 1), depth);
      && (r.Fail? ==> ParseItems(b, p, depth) == Fail)
      && (r.Done? ==>
          var s := Skip(b, r.next);
          && (b[s] == ',' ==>
              s < |b| - 1 && Before(read, ParseItems(b, p, depth)) == Before(read + [r.value], ParseItems(b, s, depth)))
          && (b[s] == ']' ==> Before(read, ParseItems(b, p, depth)) == Done(read + [r.value], s + 1))
          && (b[s] != ',' && b[s] != ']' ==> ParseItems(b, p, depth) == Fail))
  {
    hide ParseValue, Skip;
    var r := ParseValue(b, Skip(b, p + 1), depth);
    if r.Done? {
      var s := Skip(b, r.next);
      if b[s] == ',' {
        BeforeTwice(read, r.value, ParseItems(b, s, depth));
        assert ParseItems(b, p, depth) == Before([r.value], ParseItems(b, s, depth));
      }
    }
  }

  /** What is left to do once the round at p has read m and stopped at s. */
  ghost predicate AfterRound(b: string, p: nat, depth: nat, read: seq<Member>, m: Member, s: nat)
    requires Terminated(b) && p < |b| - 1 && s < |b|
  {
    if b[s] == ',' then
      && s < |b| - 1
      && Before(read, ParseMembers(b, p, depth)) == Before(read + [m], ParseMembers(b, s, depth))
    else if b[s] == '}' then Before(read, ParseMembers(b, p, depth)) == Done(read + [m], s + 1)
    else ParseMembers(b, p, depth) == Fail
  }

  /** One round of parse_object, spelled out. */
  lemma MembersRound(b: string, p: nat, depth: nat, read: seq<Member>, key: string, c: nat)
    requires Terminated(b) && p < |b| - 1
    requires ParseString(b, Skip(b, p + 1)).Done? && Skip(b, ParseString(b, Skip(b, p + 1)).next) == c
    requires key == ParseString(b, Skip(b, p + 1)).value
    ensures b[c] != ':' ==> ParseMembers(b, p, depth) == Fail
    ensures b[c] == ':' ==>
      var r := ParseValue(b, Skip(b, c + 1), depth);
      && (r.Fail? ==> ParseMembers(b, p, depth) == Fail)
      && (r.Done? ==> AfterRound(b, p, depth, read, Member(key, r.value), Skip(b, r.next)))
  {
    hide ParseValue, ParseString, Skip;
    if b[c] == ':' {
      var r := ParseValue(b, Skip(b, c + 1), depth);
      if r.Done? {
        var s := Skip(b, r.next);
        if b[s] == ',' {
          BeforeTwice(read, Member(key, r.value), ParseMembers(b, s, depth));
          assert ParseMembers(b, p, depth) == Before([Member(key, r.value)], ParseMembers(b, s, depth));
        }
      }
    }
  }

  lemma RunStep(b: string, p: nat, limit: nat)
    ensures limit > 0 && p < |b| && NumberChar(b[p]) ==> NumberRun(b, p, limit) == 1 + NumberRun(b, p + 1, limit - 1)
    ensures !(limit > 0 && p < |b| && NumberChar(b[p])) ==> NumberRun(b, p, limit) == 0
  {
  }

  class ParseBuffer {
    const content: string
    var offset: nat
    var depth: nat
    /** An allocation has been refused. */
    var starved: bool

    ghost predicate Valid()
      reads this
    {
      Terminated(content) && offset <= |content|
    }

    constructor (text: string)
      ensures Valid() && content == text + ['\0'] && offset == 0 && depth == 0 && !starved
    {
      content := text + ['\0'];
      offset := 0;
      depth := 0;
      starved := false;
    }

    /** The allocator may refuse at any time. */
    method Allocate() returns (granted: bool)
      modifies `starved
      ensures granted ==> starved == old(starved)
      ensures !granted ==> starved
    {
      if * {
        granted := true;
      } else {
        starved := true;
        granted := false;
      }
    }

    method SkipWhitespace()
      requires Valid()
      modifies `offset
      ensures Valid() && offset == Skip(content, old(offset)) && offset < |content|
    {
      while offset < |content| && content[offset] <= ' '
        invariant offset <= |content| && Skip(content, offset) == Skip(content, old(offset))
      {
        offset := offset + 1;
      }
      if offset == |content| {
        offset := offset - 1;
      }
    }

    /** skip_utf8_bom: only at the start, and only if a byte and the NUL come behind the mark. */
    method SkipUtf8Bom() returns (atStart: bool)
      requires Valid()
      modifies `offset
      ensures Valid() && (atStart <==> old(offset) == 0)
      ensures offset == if atStart && |content| > 4 && MarkAt(0) then 3 else old(offset)
    {
      if offset != 0 {
        return false;
      }
      if offset + 4 < |content| && MarkAt(offset) {
        offset := offset + 3;
      }
      return true;
    }

    /** strncmp with the three bytes of the mark. */
    predicate MarkAt(p: nat)
      requires p + 3 <= |content|
    {
      content[p] == '\U{ef}' && content[p + 1] == '\U{bb}' && content[p + 2] == '\U{bf}'
    }

    lemma MarkIsBom()
      ensures SkipBom(content) == if |content| > 4 && MarkAt(0) then 3 else 0
    {
    }

    /** The copying loop of parse_number. */
    method CopyNumber(numberText: array<char>) returns (i: nat)
      requires Valid() && offset < |content| && numberText.Length == 64
      modifies numberText
      ensures i == NumberRun(content, offset, 63) && i <= 63 && offset + i <= |content|
      ensures numberText[..i] == content[offset..offset + i]
    {
      hide NumberRun;
      i := 0;
      while i < 63 && offset + i < |content| && NumberChar(content[offset + i])
        invariant i <= 63 && offset + i <= |content|
        invariant forall k :: 0 <= k < i ==> numberText[k] == content[offset + k]
        invariant NumberRun(content, offset, 63) == i + NumberRun(content, offset + i, 63 - i)
      {
        RunStep(content, offset + i, 63 - i);
        numberText[i] := content[offset + i];
        i := i + 1;
      }
      RunStep(content, offset + i, 63 - i);
    }

    /** parse_number: at most 63 bytes are copied aside, and strtod takes what it can of them. */
    method ReadNumber() returns (r: Option<Json>)
      requires Valid() && offset < |content|
      modifies `offset
      ensures Valid()
      ensures r.Some? ==> ParseNumber(content, old(offset)) == Done(r.value, offset)
      ensures r.None? ==> ParseNumber(content, old(offset)) == Fail && offset == old(offset)
    {
      hide NumberRun, StrtodLength;
      var numberText := new char[64];
      var i := CopyNumber(numberText);
      var taken := StrtodLength(numberText[..i]);
      if taken == 0 {
        return None;
      }
      assert numberText[..taken] == numberText[..i][..taken] == content[offset..offset + taken];
      r := Some(Number(numberText[..taken]));
      offset := offset + taken;
    }

    /** Finds the closing quote and counts the escapes before it. */
    method FirstPass() returns (r: Option<(nat, nat)>)
      requires Valid() && offset < |content| && content[offset] == '\"'
      ensures r.None? <==> ClosingQuote(content, offset + 1) == None
      ensures r.Some? ==>
        && ClosingQuote(content, offset + 1) == Some(r.value.0) && offset < r.value.0
        && r.value.0 - offset - r.value.1 == Units(content, offset + 1, r.value.0) + 1
    {
      var end: nat, skipped: nat := offset + 1, 0;
      ghost var quote := ClosingQuote(content, offset + 1);
      while end < |content| && content[end] != '\"'
        invariant offset < end <= |content| + 1 && ClosingQuote(content, end) == quote
        invariant quote.Some? ==>
          end <= quote.value && Units(content, offset + 1, quote.value)
                                == end - offset - 1 - skipped + Units(content, end, quote.value)
        decreases |content| + 1 - end
      {
        if content[end] == '\\' {
          if end + 1 >= |content| {
            return None;
          }
          skipped := skipped + 1;
          end := end + 1;
        }
        end := end + 1;
      }
      if end >= |content| {
        return None;
      }
      return Some((end, skipped));
    }

    /** parse_string: only a refused allocation makes it fail where the text is in order. */
    method ReadString() returns (r: Option<string>)
      requires Valid() && offset < |content|
      modifies this
      ensures Valid() && depth == old(depth)
      ensures r.Some? ==>
        starved == old(starved) && ParseString(content, old(offset)) == Done(r.value, offset)
      ensures r.None? ==> starved || ParseString(content, old(offset)) == Fail
    {
      hide Decode, ClosingQuote, Units, Aligned, CString;
      if content[offset] != '\"' {
        offset := offset + 1;
        return None;
      }
      var pass := FirstPass();
      if pass.None? {
        offset := offset + 1;
        return None;
      }
      var (end, skipped) := pass.value;
      var granted := Allocate();
      if !granted {
        offset := offset + 1;
        return None;
      }
      var output := new char[end - offset - skipped + 1];
      ClosingQuoteAligned(content, offset + 1);
      var written, stop := DecodeInto(content, offset + 1, end, output);
      if written.None? {
        offset := stop;
        return None;
      }
      ghost var text := output[..written.value];
      output[written.value] := '\0';
      CStringStops(text, output[..]);
      r := Some(CString(output[..]));
      offset := end + 1;
    }

    method ReadValue() returns (r: Option<Json>)
      requires Valid() && offset < |content|
      modifies this
      ensures Valid()
      ensures r.Some? ==>
        && starved == old(starved) && depth == old(depth)
        && ParseValue(content, old(offset), old(depth)) == Done(r.value, offset)
      ensures r.None? ==> starved || ParseValue(content, old(offset), old(depth)) == Fail
      decreases |content| - offset, 2
    {
      hide Starts, ParseString, ParseNumber, ParseArray, ParseObject;
      ghost var p := offset;
      if Starts(content, offset, "null") {
        WordInside(content, offset, "null");
        offset := offset + 4;
        return Some(Null);
      }
      if Starts(content, offset, "false") {
        WordInside(content, offset, "false");
        offset := offset + 5;
        return Some(False);
      }
      if Starts(content, offset, "true") {
        WordInside(content, offset, "true");
        offset := offset + 4;
        return Some(True);
      }
      if content[offset] == '\"' {
        var s := ReadString();
        if s.Some? {
          r := Some(Str(s.value));
        } else {
          r := None;
        }
        return;
      }
      if content[offset] == '-' || IsDigit(content[offset]) {
        r := ReadNumber();
        return;
      }
      if content[offset] == '[' {
        var items := ReadArray();
        if items.Some? {
          r := Some(Arr(items.value));
        } else {
          r := None;
        }
        return;
      }
      if content[offset] == '{' {
        var members := ReadObject();
        if members.Some? {
          r := Some(Obj(members.value));
        } else {
          r := None;
        }
        return;
      }
      return None;
    }

    method ReadArray() returns (r: Option<seq<Json>>)
      requires Valid() && offset < |content| && content[offset] == '['
      modifies this
      ensures Valid()
      ensures r.Some? ==>
        && starved == old(starved) && depth == old(depth)
        && ParseArray(content, old(offset), old(depth)) == Done(r.value, offset)
      ensures r.None? ==> starved || ParseArray(content, old(offset), old(depth)) == Fail
      decreases |content| - offset, 1
    {
      hide ParseItems, Skip;
      if depth >= NESTING_LIMIT {
        return None;
      }
      depth := depth + 1;
      offset := offset + 1;
      SkipWhitespace();
      var items := [];
      if content[offset] != ']' {
        offset := offset - 1;
        var read := ReadItems();
        if read.None? {
          return None;
        }
        items := read.value;
      }
      depth := depth - 1;
      offset := offset + 1;
      return Some(items);
    }

    /** The do-while loop over the elements; it stops at the closing bracket. */
    method ReadItems() returns (r: Option<seq<Json>>)
      requires Valid() && offset < |content| - 1
      modifies this
      ensures Valid()
      ensures r.Some? ==>
        && starved == old(starved) && depth == old(depth)
        && ParseItems(content, old(offset), old(depth)) == Done(r.value, offset + 1)
      ensures r.None? ==> starved || ParseItems(content, old(offset), old(depth)) == Fail
      decreases |content| - offset, 0
    {
      hide ParseItems, ParseValue, Skip;
      var read: seq<Json> := [];
      var more := true;
      BeforeNone(ParseItems(content, offset, depth));
      while more
        invariant Valid() && depth == old(depth) && starved == old(starved) && offset >= old(offset)
        invariant more ==>
          && offset < |content| - 1
          && ParseItems(content, old(offset), depth) == Before(read, ParseItems(content, offset, depth))
        invariant !more ==>
          && offset < |content| && content[offset] != ','
          && ParseItems(content, old(offset), depth) == if content[offset] == ']' then Done(read, offset + 1) else Fail
        decreases |content| - offset, more
      {
        ItemsRound(content, offset, depth, read);
        var granted := Allocate();
        if !granted {
          return None;
        }
        offset := offset + 1;
        SkipWhitespace();
        var value := ReadValue();
        if value.None? {
          return None;
        }
        SkipWhitespace();
        read := read + [value.value];
        more := content[offset] == ',';
      }
      if content[offset] != ']' {
        return None;
      }
      return Some(read);
    }

    method ReadObject() returns (r: Option<seq<Member>>)
      requires Valid() && offset < |content| && content[offset] == '{'
      modifies this
      ensures Valid()
      ensures r.Some? ==>
        && starved == old(starved) && depth == old(depth)
        && ParseObject(content, old(offset), old(depth)) == Done(r.value, offset)
      ensures r.None? ==> starved || ParseObject(content, old(offset), old(depth)) == Fail
      decreases |content| - offset, 1
    {
      hide ParseMembers, Skip;
      if depth >= NESTING_LIMIT {
        return None;
      }
      depth := depth + 1;
      offset := offset + 1;
      SkipWhitespace();
      var members := [];
      if content[offset] != '}' {
        offset := offset - 1;
        var read := ReadMembers();
        if read.None? {
          return None;
        }
        members := read.value;
      }
      depth := depth - 1;
      offset := offset + 1;
      return Some(members);
    }

    /** One round of the loop over the members; `read` are the members before it. */
    method ReadMember(ghost read: seq<Member>) returns (r: Option<Member>)
      requires Valid() && offset < |content| - 1
      modifies this
      ensures Valid()
      ensures r.Some? ==>
        && starved == old(starved) && depth == old(depth) && old(offset) < offset < |content|
        && AfterRound(content, old(offset), depth, read, r.value, offset)
      ensures r.None? ==> starved || ParseMembers(content, old(offset), old(depth)) == Fail
      decreases |content| - offset, 0, -1
    {
      hide ParseMembers, ParseValue, ParseString, Skip;
      ghost var p := offset;
      offset := offset + 1;
      SkipWhitespace();
      NameFails(content, p, depth);
      var key := ReadString();
      if key.None? {
        return None;
      }
      SkipWhitespace();
      MembersRound(content, p, depth, read, key.value, offset);
      if content[offset] != ':' {
        return None;
      }
      offset := offset + 1;
      SkipWhitespace();
      var value := ReadValue();
      if value.None? {
        return None;
      }
      SkipWhitespace();
      r := Some(Member(key.value, value.value));
    }

    /** The do-while loop over the members; it stops at the closing brace. */
    method ReadMembers() returns (r: Option<seq<Member>>)
      requires Valid() && offset < |content| - 1
      modifies this
      ensures Valid()
      ensures r.Some? ==>
        && starved == old(starved) && depth == old(depth)
        && ParseMembers(content, old(offset), old(depth)) == Done(r.value, offset + 1)
      ensures r.None? ==> starved || ParseMembers(content, old(offset), old(depth)) == Fail
      decreases |content| - offset, 0, 0
    {
      hide ParseMembers, ParseValue, ParseString, Skip;
      var read: seq<Member> := [];
      var more := true;
      BeforeNone(ParseMembers(content, offset, depth));
      while more
        invariant Valid() && depth == old(depth) && starved == old(starved) && offset >= old(offset)
        invariant more ==>
          && offset < |content| - 1
          && ParseMembers(content, old(offset), depth) == Before(read, ParseMembers(content, offset, depth))
        invariant !more ==>
          && offset < |content| && content[offset] != ','
          && ParseMembers(content, old(offset), depth)
             == if content[offset] == '}' then Done(read, offset + 1) else Fail
        decreases |content| - offset, more
      {
        var granted := Allocate();
        if !granted {
          return None;
        }
        var member := ReadMember(read);
        if member.None? {
          return None;
        }
        read := read + [member.value];
        more := content[offset] == ',';
      }
      if content[offset] != '}' {
        return None;
      }
      return Some(read);
    }
  }

  lemma NameFails(b: string, p: nat, depth: nat)
    requires Terminated(b) && p < |b| - 1
    ensures ParseString(b, Skip(b, p + 1)).Fail? ==> ParseMembers(b, p, depth) == Fail
  {
    hide ParseValue, ParseString, Skip;
  }

  /** cJSON_ParseWithOpts of a C string.  A document is refused only for want of memory, or because it does
      not parse, or because something follows it and nothing may. */
  method ParseWithOpts(text: string, requireNull: bool) returns (value: Option<Json>, end: nat, starved: bool)
    requires NulFree(text)
    ensures value.Some? ==>
      && Parse(text).Done? && value.value == Parse(text).value
      && end == (if requireNull then |text| else Parse(text).next)
      && (requireNull ==> Skip(text + ['\0'], Parse(text).next) == |text|)
    ensures value.None? ==>
      || starved || Parse(text).Fail?
      || (requireNull && (text + ['\0'])[Skip(text + ['\0'], Parse(text).next)] != '\0')
  {
    hide ParseValue;
    var buffer := new ParseBuffer(text);
    end := 0;
    var granted := buffer.Allocate();
    starved := buffer.starved;
    if !granted {
      return None, end, starved;
    }
    var atStart := buffer.SkipUtf8Bom();
    buffer.MarkIsBom();
    buffer.SkipWhitespace();
    value := buffer.ReadValue();
    starved := buffer.starved;
    if value.Some? && requireNull {
      buffer.SkipWhitespace();
      if buffer.content[buffer.offset] != '\0' {
        value := None;
      }
    }
    end := buffer.offset;
  }
}