/** The byte order mark in front of a text: the parser does with the rest what it does without the mark. */
module CjsonBom {
  import opened Wrappers
  import opened CjsonKeys
  import opened CjsonString
  import opened CjsonText
  import opened CjsonGrammar
  import opened CjsonMinifyParse
  import opened CjsonRfc8259

  /** U+FEFF in UTF-8. */
  const MARK := ['\U{ef}', '\U{bb}', '\U{bf}']

  /** c is b behind n other bytes. */
  ghost predicate Moved(b: string, c: string, n: nat) {
    |c| == n + |b| && forall i :: 0 <= i < |b| ==> c[n + i] == b[i]
  }

  function Further<T>(r: Parsed<T>, n: nat): Parsed<T> {
    match r
    case Fail => Fail
    case Done(v, next) => Done(v, next + n)
  }

  lemma MovedSlice(b: string, c: string, n: nat, i: nat, j: nat)
    requires Moved(b, c, n) && i <= j <= |b|
    ensures c[n + i..n + j] == b[i..j]
  {
    forall k | 0 <= k < j - i ensures c[n + i..n + j][k] == b[i..j][k] {
      assert c[n + (i + k)] == b[i + k];
    }
  }

  lemma {:induction false} SkipMoved(b: string, c: string, n: nat, p: nat)
    requires Moved(b, c, n) && |b| > 0 && p <= |b|
    ensures Skip(c, n + p) == n + Skip(b, p)
    decreases |b| - p
  {
    if p < |b| {
      assert c[n + p] == b[p];
      if b[p] <= ' ' {
        SkipMoved(b, c, n, p + 1);
      }
    }
  }

  lemma {:induction false} ClosingMoved(b: string, c: string, n: nat, p: nat)
    requires Moved(b, c, n)
    ensures ClosingQuote(c, n + p)
         == if ClosingQuote(b, p).Some? then Some(n + ClosingQuote(b, p).value) else None
    decreases |b| - p
  {
    if p < |b| {
      assert c[n + p] == b[p];
      if b[p] == '\\' {
        ClosingMoved(b, c, n, p + 2);
      } else if b[p] != '\"' {
        ClosingMoved(b, c, n, p + 1);
      }
    }
  }

  lemma StringMoved(b: string, c: string, n: nat, p: nat)
    requires Moved(b, c, n) && Terminated(b) && Terminated(c) && p < |b|
    ensures ParseString(c, n + p) == Further(ParseString(b, p), n)
  {
    hide Decode, ClosingQuote, CString;
    assert c[n + p] == b[p];
    ClosingMoved(b, c, n, p + 1);
    var e := ClosingQuote(b, p + 1);
    if e.Some? {
      assert forall i :: p + 1 <= i < e.value + 1 ==> b[i] == c[n + i];
      DecodeSame(b, p + 1, e.value, c, n + (p + 1));
    }
  }

  lemma {:induction false} RunMoved(b: string, c: string, n: nat, p: nat, limit: nat)
    requires Moved(b, c, n) && p <= |b|
    ensures NumberRun(c, n + p, limit) == NumberRun(b, p, limit)
    decreases limit
  {
    if limit > 0 && p < |b| {
      assert c[n + p] == b[p];
      if NumberChar(b[p]) {
        RunMoved(b, c, n, p + 1, limit - 1);
      }
    }
  }

  lemma NumberMoved(b: string, c: string, n: nat, p: nat)
    requires Moved(b, c, n) && Terminated(b) && Terminated(c) && p < |b|
    ensures ParseNumber(c, n + p) == Further(ParseNumber(b, p), n)
  {
    hide StrtodLength, NumberRun;
    RunMoved(b, c, n, p, 63);
    var m := NumberRun(b, p, 63);
    MovedSlice(b, c, n, p, p + m);
    MovedSlice(b, c, n, p, p + StrtodLength(b[p..p + m]));
  }

  lemma WordMoved(b: string, c: string, n: nat, p: nat, word: string)
    requires Moved(b, c, n) && p <= |b|
    ensures Starts(c, n + p, word) == Starts(b, p, word)
  {
    if p + |word| <= |b| {
      MovedSlice(b, c, n, p, p + |word|);
    }
  }

  lemma {:induction false} ValueMoved(b: string, c: string, n: nat, p: nat, depth: nat)
    requires Moved(b, c, n) && Terminated(b) && Terminated(c) && p < |b|
    ensures ParseValue(c, n + p, depth) == Further(ParseValue(b, p, depth), n)
    decreases |b| - p, 3
  {
    hide ParseString, ParseNumber, ParseArray, ParseObject, Starts;
    WordMoved(b, c, n, p, "null");
    WordMoved(b, c, n, p, "false");
    WordMoved(b, c, n, p, "true");
    assert c[n + p] == b[p];
    StringMoved(b, c, n, p);
    NumberMoved(b, c, n, p);
    if b[p] == '[' {
      ArrayMoved(b, c, n, p, depth);
    }
    if b[p] == '{' {
      ObjectMoved(b, c, n, p, depth);
    }
  }

  lemma ArrayMoved(b: string, c: string, n: nat, p: nat, depth: nat)
    requires Moved(b, c, n) && Terminated(b) && Terminated(c) && p < |b| && b[p] == '[' && c[n + p] == '['
    ensures ParseArray(c, n + p, depth) == Further(ParseArray(b, p, depth), n)
    decreases |b| - p, 2
  {
    hide ParseItems, Skip;
    SkipMoved(b, c, n, p + 1);
    var q := Skip(b, p + 1);
    assert c[n + q] == b[q];
    if b[q] != ']' {
      ItemsMoved(b, c, n, q - 1, depth + 1);
    }
  }

  lemma {:induction false} ItemsMoved(b: string, c: string, n: nat, p: nat, depth: nat)
    requires Moved(b, c, n) && Terminated(b) && Terminated(c) && p < |b| - 1
    ensures ParseItems(c, n + p, depth) == Further(ParseItems(b, p, depth), n)
    decreases |b| - p, 1
  {
    hide ParseValue, Skip;
    SkipMoved(b, c, n, p + 1);
    ValueMoved(b, c, n, Skip(b, p + 1), depth);
    var r := ParseValue(b, Skip(b, p + 1), depth);
    if r.Done? {
      SkipMoved(b, c, n, r.next);
      var s := Skip(b, r.next);
      assert c[n + s] == b[s];
      if b[s] == ',' {
        ItemsMoved(b, c, n, s, depth);
      }
    }
  }

  lemma ObjectMoved(b: string, c: string, n: nat, p: nat, depth: nat)
    requires Moved(b, c, n) && Terminated(b) && Terminated(c) && p < |b| && b[p] == '{' && c[n + p] == '{'
    ensures ParseObject(c, n + p, depth) == Further(ParseObject(b, p, depth), n)
    decreases |b| - p, 2
  {
    hide ParseMembers, Skip;
    SkipMoved(b, c, n, p + 1);
    var q := Skip(b, p + 1);
    assert c[n + q] == b[q];
    if b[q] != '}' {
      MembersMoved(b, c, n, q - 1, depth + 1);
    }
  }

  /** What is left to read of an object behind the name of a member, the colon expected at p, ... */
  function AfterName(b: string, key: string, p: nat, depth: nat): Parsed<seq<Member>>
    requires Terminated(b) && p < |b|
  {
    if b[p] != ':' then Fail
    else
      match ParseValue(b, Skip(b, p + 1), depth)
      case Fail => Fail
      case Done(v, q) => AfterMember(b, Member(key, v), Skip(b, q), depth)
  }

  /** ... and behind its value. */
  function AfterMember(b: string, m: Member, p: nat, depth: nat): Parsed<seq<Member>>
    requires Terminated(b) && p < |b|
  {
    if b[p] == ',' then
      match ParseMembers(b, p, depth)
      case Fail => Fail
      case Done(rest, q) => Done([m] + rest, q)
    else if b[p] == '}' then Done([m], p + 1)
    else Fail
  }

  lemma MembersUnfold(b: string, p: nat, depth: nat)
    requires Terminated(b) && p < |b| - 1
    ensures var name := ParseString(b, Skip(b, p + 1));
      ParseMembers(b, p, depth)
      == if name.Fail? then Fail else AfterName(b, name.value, Skip(b, name.next), depth)
  {
    hide ParseString, ParseValue, Skip;
  }

  lemma {:induction false} MembersMoved(b: string, c: string, n: nat, p: nat, depth: nat)
    requires Moved(b, c, n) && Terminated(b) && Terminated(c) && p < |b| - 1
    ensures ParseMembers(c, n + p, depth) == Further(ParseMembers(b, p, depth), n)
    decreases |b| - p, 1
  {
    hide ParseString, ParseMembers, AfterName, Skip;
    MembersUnfold(b, p, depth);
    MembersUnfold(c, n + p, depth);
    SkipMoved(b, c, n, p + 1);
    StringMoved(b, c, n, Skip(b, p + 1));
    var name := ParseString(b, Skip(b, p + 1));
    if name.Done? {
      SkipMoved(b, c, n, name.next);
      AfterNameMoved(b, c, n, name.value, Skip(b, name.next), depth);
    }
  }

  lemma AfterNameMoved(b: string, c: string, n: nat, key: string, p: nat, depth: nat)
    requires Moved(b, c, n) && Terminated(b) && Terminated(c) && p < |b|
    ensures AfterName(c, key, n + p, depth) == Further(AfterName(b, key, p, depth), n)
    decreases |b| - p, 4
  {
    hide ParseValue, AfterMember, Skip;
    assert c[n + p] == b[p];
    if b[p] == ':' {
      SkipMoved(b, c, n, p + 1);
      ValueMoved(b, c, n, Skip(b, p + 1), depth);
      var r := ParseValue(b, Skip(b, p + 1), depth);
      if r.Done? {
        SkipMoved(b, c, n, r.next);
        AfterMemberMoved(b, c, n, Member(key, r.value), Skip(b, r.next), depth);
      }
    }
  }

  lemma AfterMemberMoved(b: string, c: string, n: nat, m: Member, p: nat, depth: nat)
    requires Moved(b, c, n) && Terminated(b) && Terminated(c) && p < |b|
    ensures AfterMember(c, m, n + p, depth) == Further(AfterMember(b, m, p, depth), n)
    decreases |b| - p, 4
  {
    hide ParseMembers;
    assert c[n + p] == b[p];
    if b[p] == ',' {
      MembersMoved(b, c, n, p, depth);
    }
  }

  // ---------------------------------------------------------------- the mark

  predicate Marked(t: string) {
    |t| >= 3 && t[..3] == MARK
  }

  lemma NoMark(t: string)
    requires !Marked(t)
    ensures SkipBom(t + ['\0']) == 0
  {
    if |t| >= 3 {
      assert (t + ['\0'])[..3] == t[..3];
    }
  }

  lemma MarkSkipped(t: string)
    requires t != []
    ensures SkipBom(MARK + t + ['\0']) == 3
  {
    assert (MARK + t + ['\0'])[..3] == MARK;
  }

  lemma NothingAtMark(b: string, depth: nat)
    requires Terminated(b) && b[0] == MARK[0]
    ensures Skip(b, 0) == 0 && ParseValue(b, 0, depth) == Fail
  {
    assert forall word :: Starts(b, 0, word) && word != [] ==> word[0] == b[..|word|][0];
  }

  /** Behind one mark every text parses as it does without, three bytes further on; a second mark is not skipped. */
  lemma BomSkipped(t: string)
    ensures Parse(MARK + t) == if Marked(t) then Fail else Further(Parse(t), 3)
  {
    hide ParseValue, Skip, SkipBom;
    var b, c := t + ['\0'], MARK + t + ['\0'];
    assert Moved(b, c, 3);
    if t == [] {
      NothingAtMark(c, 0);
      NothingInNothing();
    } else {
      MarkSkipped(t);
      SkipMoved(b, c, 3, 0);
      ValueMoved(b, c, 3, Skip(b, 0), 0);
      if Marked(t) {
        assert b[0] == t[..3][0];
        NothingAtMark(b, 0);
      } else {
        NoMark(t);
      }
    }
  }

  lemma NothingInNothing()
    ensures Parse([]) == Fail
    ensures SkipBom(MARK + [] + ['\0']) == 0
  {
    assert [] + ['\0'] == ['\0'];
    assert Skip(['\0'], 0) == Skip(['\0'], 1) == 0;
    assert forall word :: Starts(['\0'], 0, word) && word != [] ==> word[0] == ['\0'][..|word|][0];
  }

  /** The text of a readable tree between blanks, with or without a mark in front. */
  lemma MarkedTextParses(mark: string, before: string, t: Syntax, after: string)
    requires (mark == MARK || mark == []) && Blanks(before) && Readable(t) && Blanks(after)
    ensures var text, next := mark + (before + (Source(t) + after)), |mark| + |before| + |Source(t)|;
      && Parse(text) == Outcome(Height(ValueOf(t)) <= NESTING_LIMIT, ValueOf(t), next)
      && Skip(text + ['\0'], next) == |text|
  {
    hide Readable, Source, ValueOf, Parse, Skip, Height, Blanks;
    TextParses(before, t, after);
    var plain := before + (Source(t) + after);
    if mark == [] {
      assert mark + plain == plain;
    } else {
      TextUnmarked(before, t, after);
      BomSkipped(plain);
      assert Moved(plain + ['\0'], mark + plain + ['\0'], 3);
      SkipMoved(plain + ['\0'], mark + plain + ['\0'], 3, |before| + |Source(t)|);
    }
  }

  lemma TextUnmarked(before: string, t: Syntax, after: string)
    requires Blanks(before) && Readable(t)
    ensures !Marked(before + (Source(t) + after))
  {
    hide Readable, Source;
    SourceOpens(t);
    var text := before + (Source(t) + after);
    assert |text| >= 3 ==> text[..3][0] == text[0];
  }

  /** Every text of RFC 8259, with or without a byte order mark in front (which section 8.1 lets a parser ignore), is
      accepted as a whole and with its value if and only if it is nested at most 1000 deep. */
  lemma MarkedTextsAccepted(mark: string, before: string, t: Syntax, after: string)
    requires (mark == MARK || mark == []) && Ws(before) && Rfc8259(t) && Ws(after)
    ensures Readable(t)
    ensures var text, next := mark + (before + (Source(t) + after)), |mark| + |before| + |Source(t)|;
      if Height(ValueOf(t)) <= NESTING_LIMIT
      then Parse(text) == Done(ValueOf(t), next) && Skip(text + ['\0'], next) == |text|
      else Parse(text) == Fail
  {
    hide Rfc8259, Readable, Source, ValueOf, Parse, Skip, Height;
    RfcReadable(t);
    MarkedTextParses(mark, before, t, after);
  }
}
