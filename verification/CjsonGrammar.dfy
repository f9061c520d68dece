/** The grammar of JSON texts (RFC 8259) as syntax trees, and that the parser of cJSON accepts their texts with their
    values. */
module CjsonGrammar {
  import opened Wrappers
  import opened CjsonKeys
  import opened CjsonString
  import opened CjsonText

  // ---------------------------------------------------------------- syntax trees

  /** A JSON text with its blanks.  The blanks of an empty array or object are its gap. */
  datatype Syntax =
    | NullWord
    | FalseWord
    | TrueWord
    | Numeral(text: string)
    | Quoted(pieces: seq<Piece>)
    | Brackets(gap: string, elements: seq<Element>)
    | Braces(gap: string, fields: seq<Field>)

  datatype Element = Element(before: string, value: Syntax, after: string)

  datatype Field =
    Field(before: string, name: seq<Piece>, beforeColon: string, afterColon: string, value: Syntax, after: string)

  predicate Blanks(s: string) {
    forall i :: 0 <= i < |s| ==> s[i] <= ' '
  }

  /** What both passes of the decoder ask of a literal: the first runs over it, the second takes it for these pieces. */
  predicate Pieces(ps: seq<Piece>) {
    AllTaken(ps) && Scans(Sources(ps))
  }

  /** A number the parser takes as a whole. */
  predicate NumeralOk(t: string) {
    && 0 < |t| <= 63 && (t[0] == '-' || IsDigit(t[0]))
    && (forall i :: 0 <= i < |t| ==> NumberChar(t[i])) && StrtodLength(t) == |t|
  }

  /** What the parser asks of a text. */
  predicate Readable(t: Syntax)
    decreases t
  {
    match t
    case Numeral(text) => NumeralOk(text)
    case Quoted(ps) => Pieces(ps)
    case Brackets(gap, es) => Blanks(gap) && ReadableElements(es)
    case Braces(gap, fs) => Blanks(gap) && ReadableFields(fs)
    case _ => true
  }

  predicate ReadableElements(es: seq<Element>)
    decreases es
  {
    es == [] ||
    (Blanks(es[0].before) && Readable(es[0].value) && Blanks(es[0].after) && ReadableElements(es[1..]))
  }

  predicate ReadableFields(fs: seq<Field>)
    decreases fs
  {
    fs == [] ||
    (&& Blanks(fs[0].before) && Pieces(fs[0].name) && Blanks(fs[0].beforeColon) && Blanks(fs[0].afterColon)
     && Readable(fs[0].value) && Blanks(fs[0].after) && ReadableFields(fs[1..]))
  }

  function Enclosed(ps: seq<Piece>): string
    requires Pieces(ps)
  {
    ['\"'] + Sources(ps) + ['\"']
  }

  /** The text. */
  function Source(t: Syntax): string
    requires Readable(t)
    decreases t
  {
    match t
    case NullWord => "null"
    case FalseWord => "false"
    case TrueWord => "true"
    case Numeral(text) => text
    case Quoted(ps) => Enclosed(ps)
    case Brackets(gap, es) => "[" + ((if es == [] then gap else ElementsSource(es)) + "]")
    case Braces(gap, fs) => "{" + ((if fs == [] then gap else FieldsSource(fs)) + "}")
  }

  function ElementsSource(es: seq<Element>): string
    requires es != [] && ReadableElements(es)
    decreases es
  {
    es[0].before + (Source(es[0].value) + (es[0].after + if |es| == 1 then "" else "," + ElementsSource(es[1..])))
  }

  function FieldsSource(fs: seq<Field>): string
    requires fs != [] && ReadableFields(fs)
    decreases fs
  {
    fs[0].before + (Enclosed(fs[0].name) + (fs[0].beforeColon + (":" + (fs[0].afterColon + (Source(fs[0].value)
    + (fs[0].after + if |fs| == 1 then "" else "," + FieldsSource(fs[1..])))))))
  }

  /** The value. */
  function ValueOf(t: Syntax): Json
    requires Readable(t)
    decreases t
  {
    match t
    case NullWord => Null
    case FalseWord => False
    case TrueWord => True
    case Numeral(text) => Number(text)
    case Quoted(ps) => Str(CString(Meanings(ps)))
    case Brackets(_, es) => Arr(Values(es))
    case Braces(_, fs) => Obj(Members(fs))
  }

  function Values(es: seq<Element>): (vs: seq<Json>)
    requires ReadableElements(es)
    ensures |vs| == |es|
    decreases es
  {
    if es == [] then [] else [ValueOf(es[0].value)] + Values(es[1..])
  }

  function Members(fs: seq<Field>): (ms: seq<Member>)
    requires ReadableFields(fs)
    ensures |ms| == |fs|
    decreases fs
  {
    if fs == [] then []
    else [Member(CString(Meanings(fs[0].name)), ValueOf(fs[0].value))] + Members(fs[1..])
  }

  // ---------------------------------------------------------------- what stands where

  lemma {:induction false} SkipBlanks(b: string, p: nat, s: string)
    requires |b| > 0 && Stands(b, p, s) && forall i :: 0 <= i < |s| ==> s[i] <= ' '
    ensures Skip(b, p) == Skip(b, p + |s|)
    decreases |s|
  {
    if s != [] {
      assert s == [s[0]] + s[1..];
      StandsParts(b, p, [s[0]], s[1..]);
      assert b[p] == b[p..p + 1][0];
      SkipBlanks(b, p + 1, s[1..]);
    }
  }

  lemma SkipNothing(b: string, p: nat)
    requires p < |b| && b[p] > ' '
    ensures Skip(b, p) == p
  {
  }

  lemma StandsChar(b: string, p: nat, c: char)
    requires Stands(b, p, [c])
    ensures p < |b| && b[p] == c
  {
    assert b[p] == b[p..p + 1][0];
  }

  lemma StandsHead(b: string, p: nat, s: string)
    requires Stands(b, p, s) && s != []
    ensures p < |b| && b[p] == s[0]
  {
    assert b[p] == b[p..p + |s|][0];
  }

  lemma StandsInside(b: string, p: nat, s: string)
    requires Stands(b, p, s)
    ensures p + |s| <= |b|
  {
  }

  lemma Heads(s: string, t: string)
    requires s != []
    ensures s + t != [] && (s + t)[0] == s[0]
  {
  }

  /** Concatenation, to be hidden. */
  function Cat(s: string, t: string): (r: string)
    ensures |r| == |s| + |t|
  {
    s + t
  }

  lemma CatHead(s: string, t: string)
    requires s != []
    ensures Cat(s, t) != [] && Cat(s, t)[0] == s[0]
  {
  }

  lemma CatStands(b: string, p: nat, s: string, t: string)
    requires Stands(b, p, Cat(s, t))
    ensures Stands(b, p, s) && Stands(b, p + |s|, t) && p + |s| + |t| <= |b|
  {
    StandsParts(b, p, s, t);
  }

  /** Over blanks to what follows them. */
  lemma Passes(b: string, p: nat, s: string, rest: string)
    requires Stands(b, p, Cat(s, rest)) && Blanks(s) && rest != [] && rest[0] > ' '
    ensures Stands(b, p + |s|, rest) && p + |s| + |rest| <= |b| && b[p + |s|] == rest[0]
    ensures Skip(b, p) == p + |s| && Skip(b, p + |s|) == p + |s|
  {
    StandsParts(b, p, s, rest);
    StandsHead(b, p + |s|, rest);
    SkipBlanks(b, p, s);
    SkipNothing(b, p + |s|);
  }

  /** The character behind a value. */
  predicate Ends(b: string, q: nat) {
    q < |b| && !NumberChar(b[q])
  }

  lemma BlanksEnd(b: string, q: nat, s: string, rest: string)
    requires Stands(b, q, Cat(s, rest)) && Blanks(s) && rest != [] && !NumberChar(rest[0])
    ensures Ends(b, q)
  {
    StandsHead(b, q, s + rest);
  }

  // ---------------------------------------------------------------- strings, numbers and words

  lemma EnclosedParses(b: string, p: nat, ps: seq<Piece>)
    requires Terminated(b) && Pieces(ps) && Stands(b, p, Enclosed(ps))
    ensures p < |b| && b[p] == '\"' && ParseString(b, p) == Done(CString(Meanings(ps)), p + |Enclosed(ps)|)
  {
    hide Decode, ClosingQuote, Sources, Meanings, Scans;
    assert Enclosed(ps) == ['\"'] + (Sources(ps) + ['\"']);
    StandsParts(b, p, ['\"'], Sources(ps) + ['\"']);
    StandsParts(b, p + 1, Sources(ps), ['\"']);
    StandsChar(b, p, '\"');
    StandsChar(b, p + 1 + |Sources(ps)|, '\"');
    ScansClosing(b, p + 1, Sources(ps));
    PiecesDecode(b, p + 1, ps);
  }

  lemma {:induction false} RunIs(b: string, p: nat, t: string, limit: nat)
    requires Stands(b, p, t) && |t| <= limit && forall i :: 0 <= i < |t| ==> NumberChar(t[i])
    requires p + |t| < |b| && !NumberChar(b[p + |t|])
    ensures NumberRun(b, p, limit) == |t|
    decreases |t|
  {
    if t != [] {
      assert t == [t[0]] + t[1..];
      StandsParts(b, p, [t[0]], t[1..]);
      StandsChar(b, p, t[0]);
      RunIs(b, p + 1, t[1..], limit - 1);
    }
  }

  lemma NumeralParses(b: string, p: nat, t: string)
    requires Terminated(b) && NumeralOk(t) && Stands(b, p, t) && Ends(b, p + |t|)
    ensures ParseNumber(b, p) == Done(Number(t), p + |t|)
  {
    hide StrtodLength;
    RunIs(b, p, t, 63);
  }

  lemma StartsHead(b: string, p: nat, word: string)
    requires Starts(b, p, word) && word != []
    ensures b[p] == word[0]
  {
    assert b[p] == b[p..p + |word|][0];
  }

  /** Which branch parse_value takes is decided by the first character. */
  lemma Branch(b: string, p: nat, depth: nat)
    requires Terminated(b) && p < |b|
    ensures b[p] != 'n' ==> !Starts(b, p, "null")
    ensures b[p] != 'f' ==> !Starts(b, p, "false")
    ensures b[p] != 't' ==> !Starts(b, p, "true")
  {
    if Starts(b, p, "null") { StartsHead(b, p, "null"); }
    if Starts(b, p, "false") { StartsHead(b, p, "false"); }
    if Starts(b, p, "true") { StartsHead(b, p, "true"); }
  }

  /** The characters a value can begin with. */
  predicate Opening(c: char) {
    c == 'n' || c == 'f' || c == 't' || c == '\"' || c == '-' || IsDigit(c) || c == '[' || c == '{'
  }

  lemma SourceOpens(t: Syntax)
    requires Readable(t)
    ensures Source(t) != [] && Opening(Source(t)[0])
  {
  }

  lemma LeafParses(t: Syntax, b: string, p: nat, depth: nat)
    requires Terminated(b) && Readable(t) && !t.Brackets? && !t.Braces? && Stands(b, p, Source(t))
    requires Ends(b, p + |Source(t)|)
    ensures ParseValue(b, p, depth) == Done(ValueOf(t), p + |Source(t)|) && Height(ValueOf(t)) == 0
  {
    hide ParseString, ParseNumber, Enclosed, NumberChar, StrtodLength, Meanings;
    SourceOpens(t);
    StandsHead(b, p, Source(t));
    Branch(b, p, depth);
    match t
    case Numeral(text) => NumeralParses(b, p, text);
    case Quoted(ps) => EnclosedParses(b, p, ps);
    case _ =>
  }

  // ---------------------------------------------------------------- arrays

  /** The value if it is not nested too deep. */
  function Outcome<T>(fits: bool, value: T, next: nat): Parsed<T> {
    if fits then Done(value, next) else Fail
  }

  lemma TooDeepHere(b: string, p: nat, depth: nat)
    requires Terminated(b) && p < |b| && (b[p] == '[' || b[p] == '{') && depth >= NESTING_LIMIT
    ensures ParseValue(b, p, depth) == Fail
  {
    hide Starts, ParseString, ParseNumber, ParseItems, ParseMembers;
    Branch(b, p, depth);
  }

  lemma BracketBranch(b: string, p: nat, depth: nat)
    requires Terminated(b) && p < |b| && b[p] == '[' && depth < NESTING_LIMIT
    ensures var q := Skip(b, p + 1);
      if b[q] == ']' then ParseValue(b, p, depth) == Done(Arr([]), q + 1)
      else match ParseItems(b, q - 1, depth + 1)
        case Fail => ParseValue(b, p, depth) == Fail
        case Done(items, e) => ParseValue(b, p, depth) == Done(Arr(items), e)
  {
    hide ParseItems, Starts, Skip, ParseObject, ParseString, ParseNumber;
    Branch(b, p, depth);
  }

  /** One element: what follows it decides how the loop goes on. */
  lemma ItemsStep(b: string, p: nat, depth: nat)
    requires Terminated(b) && p < |b| - 1
    ensures match ParseValue(b, Skip(b, p + 1), depth)
      case Fail => ParseItems(b, p, depth) == Fail
      case Done(v, e) =>
        var q := Skip(b, e);
        && (b[q] == ']' ==> ParseItems(b, p, depth) == Done([v], q + 1))
        && (b[q] == ',' ==>
              match ParseItems(b, q, depth)
              case Fail => ParseItems(b, p, depth) == Fail
              case Done(rest, u) => ParseItems(b, p, depth) == Done([v] + rest, u))
  {
    hide ParseValue, Skip;
  }

  lemma HeightParts(items: seq<Json>, members: seq<Member>)
    ensures Height(Arr(items)) == 1 + HeightItems(items) && Height(Obj(members)) == 1 + HeightMembers(members)
    ensures items != [] ==> HeightItems(items) == Max(Height(items[0]), HeightItems(items[1..]))
    ensures members != [] ==> HeightMembers(members) == Max(Height(members[0].value), HeightMembers(members[1..]))
    ensures items == [] ==> HeightItems(items) == 0
    ensures members == [] ==> HeightMembers(members) == 0
  {
  }

  lemma ValuesParts(es: seq<Element>)
    requires ReadableElements(es)
    ensures es == [] ==> Values(es) == []
    ensures es != [] ==>
      && Readable(es[0].value) && ReadableElements(es[1..])
      && Values(es) == [ValueOf(es[0].value)] + Values(es[1..]) && Values(es)[1..] == Values(es[1..])
    ensures |es| == 1 ==> Values(es) == [ValueOf(es[0].value)] && Values(es[1..]) == []
  {
  }

  lemma Regroup(s: string, t: string, u: string)
    ensures (s + t) + u == s + (t + u)
  {
  }

  lemma ElementsText(es: seq<Element>, tail: string)
    requires es != [] && ReadableElements(es)
    requires tail == if |es| == 1 then "]" else Cat(",", ElementsSource(es[1..]) + "]")
    ensures ElementsSource(es) + "]" == Cat(es[0].before, Cat(Source(es[0].value), Cat(es[0].after, tail)))
    ensures |ElementsSource(es)| == |es[0].before| + |Source(es[0].value)| + |es[0].after| + |tail| - 1
  {
    hide Source, Readable, Blanks;
    var x := es[0];
    var more := if |es| == 1 then "" else "," + ElementsSource(es[1..]);
    Regroup(x.before, Source(x.value) + (x.after + more), "]");
    Regroup(Source(x.value), x.after + more, "]");
    Regroup(x.after, more, "]");
    if |es| > 1 {
      Regroup(",", ElementsSource(es[1..]), "]");
    }
  }

  /** Where the parts of an element stand. */
  lemma ElementLayout(es: seq<Element>, b: string, w: nat) returns (k: nat, e: nat, q: nat)
    requires |b| > 0 && es != [] && ReadableElements(es) && Stands(b, w, ElementsSource(es) + "]")
    ensures k == w + |es[0].before| && e == k + |Source(es[0].value)| && q == e + |es[0].after|
    ensures Skip(b, w) == k && Skip(b, k) == k && k < |b| && Opening(b[k])
    ensures Stands(b, k, Source(es[0].value)) && Ends(b, e)
    ensures Skip(b, e) == q && q < |b| && b[q] == if |es| == 1 then ']' else ','
    ensures |es| == 1 ==> q == w + |ElementsSource(es)|
    ensures |es| > 1 ==>
      && q + 1 < |b| && Stands(b, q + 1, ElementsSource(es[1..]) + "]")
      && w + |ElementsSource(es)| == q + 1 + |ElementsSource(es[1..])|
  {
    hide Source, ElementsSource, Stands, Skip, Opening, Readable, Blanks, NumberChar, Ends, Cat;
    var x := es[0];
    var tail := if |es| == 1 then "]" else Cat(",", ElementsSource(es[1..]) + "]");
    var behind := Cat(x.after, tail);
    ElementsText(es, tail);
    SourceOpens(x.value);
    CatHead(Source(x.value), behind);
    OpeningIsBlack(Source(x.value)[0]);
    Passes(b, w, x.before, Cat(Source(x.value), behind));
    k := w + |x.before|;
    CatStands(b, k, Source(x.value), behind);
    e := k + |Source(x.value)|;
    q := ValueEnds(b, e, x.after, tail, if |es| == 1 then ']' else ',');
    if |es| > 1 {
      CatStands(b, q, ",", ElementsSource(es[1..]) + "]");
    }
  }

  /** From the end of a value over blanks to the comma or bracket. */
  lemma ValueEnds(b: string, e: nat, after: string, tail: string, c: char) returns (q: nat)
    requires |b| > 0 && Blanks(after) && Stands(b, e, Cat(after, tail))
    requires c == ',' || c == ']' || c == '}'
    requires if c == ',' then exists t :: tail == Cat(",", t) else tail == [c]
    ensures q == e + |after| && Ends(b, e) && Skip(b, e) == q && q < |b| && b[q] == c && Stands(b, q, tail)
  {
    hide Stands, Skip, Blanks, NumberChar, Ends;
    TailsEnd(c);
    assert tail != [] && tail[0] == c;
    BlanksEnd(b, e, after, tail);
    Passes(b, e, after, tail);
    q := e + |after|;
  }

  lemma TailsEnd(c: char)
    requires c == ',' || c == ']' || c == '}'
    ensures c > ' ' && !NumberChar(c)
  {
  }

  lemma OpeningIsBlack(c: char)
    requires Opening(c)
    ensures c > ' ' && c != ']' && c != '}'
  {
  }

  /** The elements from the bracket or comma at p on. */
  lemma {:induction false} ElementsParse(es: seq<Element>, b: string, p: nat, w: nat, depth: nat)
    requires Terminated(b) && es != [] && ReadableElements(es) && depth <= NESTING_LIMIT
    requires p < |b| - 1 && Stands(b, w, ElementsSource(es) + "]") && Skip(b, p + 1) == Skip(b, w)
    ensures ParseItems(b, p, depth)
         == Outcome(depth + HeightItems(Values(es)) <= NESTING_LIMIT, Values(es), w + |ElementsSource(es)| + 1)
    decreases es, 0
  {
    hide ParseItems, ParseValue, Source, ElementsSource, ValueOf, Values, Skip, Stands, Height, HeightItems, Opening,
      Readable, ReadableElements, Ends;
    var k, e, q := ElementLayout(es, b, w);
    ValuesParts(es);
    ValuesParts(es[1..]);
    HeightParts(Values(es), []);
    HeightParts(Values(es[1..]), []);
    SyntaxParses(es[0].value, b, k, depth);
    ItemsStep(b, p, depth);
    if |es| > 1 {
      ElementsParse(es[1..], b, q, q + 1, depth);
    }
  }

  lemma BracketsText(t: Syntax)
    requires t.Brackets? && Readable(t)
    ensures Blanks(t.gap) && ReadableElements(t.elements) && ValueOf(t) == Arr(Values(t.elements))
    ensures Source(t) == "[" + ((if t.elements == [] then t.gap else ElementsSource(t.elements)) + "]")
  {
  }

  lemma BracketsParse(t: Syntax, b: string, p: nat, depth: nat)
    requires Terminated(b) && t.Brackets? && Readable(t) && depth <= NESTING_LIMIT && Stands(b, p, Source(t))
    ensures ParseValue(b, p, depth)
         == Outcome(depth + Height(ValueOf(t)) <= NESTING_LIMIT, ValueOf(t), p + |Source(t)|)
    decreases t, 0
  {
    hide ParseItems, ParseValue, Source, ElementsSource, ValueOf, Values, Skip, Stands, Height, HeightItems, Opening,
      Readable, ReadableElements, Blanks, Ends;
    BracketsText(t);
    var es := t.elements;
    var inner := if es == [] then t.gap else ElementsSource(es);
    StandsParts(b, p, "[", inner + "]");
    StandsChar(b, p, '[');
    StandsInside(b, p + 1, inner + "]");
    HeightParts(Values(es), []);
    if depth == NESTING_LIMIT {
      TooDeepHere(b, p, depth);
    } else {
      BracketBranch(b, p, depth);
      if es == [] {
        assert t.gap + "]" == Cat(t.gap, "]");
        Passes(b, p + 1, t.gap, "]");
        ValuesParts(es);
      } else {
        var k, e, q := ElementLayout(es, b, p + 1);
        OpeningIsBlack(b[k]);
        ElementsParse(es, b, k - 1, p + 1, depth + 1);
      }
    }
  }

  // ---------------------------------------------------------------- objects

  lemma BraceBranch(b: string, p: nat, depth: nat)
    requires Terminated(b) && p < |b| && b[p] == '{' && depth < NESTING_LIMIT
    ensures var q := Skip(b, p + 1);
      if b[q] == '}' then ParseValue(b, p, depth) == Done(Obj([]), q + 1)
      else match ParseMembers(b, q - 1, depth + 1)
        case Fail => ParseValue(b, p, depth) == Fail
        case Done(members, e) => ParseValue(b, p, depth) == Done(Obj(members), e)
  {
    hide ParseMembers, Starts, Skip, ParseArray, ParseString, ParseNumber;
    Branch(b, p, depth);
  }

  lemma MembersStep(b: string, p: nat, depth: nat, key: string, c: nat)
    requires Terminated(b) && p < |b| - 1 && c < |b|
    requires ParseString(b, Skip(b, p + 1)).Done? && ParseString(b, Skip(b, p + 1)).value == key
    requires Skip(b, ParseString(b, Skip(b, p + 1)).next) == c && b[c] == ':'
    ensures match ParseValue(b, Skip(b, c + 1), depth)
      case Fail => ParseMembers(b, p, depth) == Fail
      case Done(v, e) =>
        var q := Skip(b, e);
        && (b[q] == '}' ==> ParseMembers(b, p, depth) == Done([Member(key, v)], q + 1))
        && (b[q] == ',' ==>
              match ParseMembers(b, q, depth)
              case Fail => ParseMembers(b, p, depth) == Fail
              case Done(rest, u) => ParseMembers(b, p, depth) == Done([Member(key, v)] + rest, u))
  {
    hide ParseValue, ParseString, Skip;
  }

  lemma MembersParts(fs: seq<Field>)
    requires ReadableFields(fs)
    ensures fs == [] ==> Members(fs) == []
    ensures fs != [] ==>
      && Pieces(fs[0].name) && Readable(fs[0].value) && ReadableFields(fs[1..])
      && Members(fs) == [Member(CString(Meanings(fs[0].name)), ValueOf(fs[0].value))] + Members(fs[1..])
      && Members(fs)[1..] == Members(fs[1..])
    ensures |fs| == 1 ==>
      Members(fs) == [Member(CString(Meanings(fs[0].name)), ValueOf(fs[0].value))] && Members(fs[1..]) == []
  {
  }

  lemma EnclosedOpens(ps: seq<Piece>)
    requires Pieces(ps)
    ensures Enclosed(ps) != [] && Enclosed(ps)[0] == '\"'
  {
    hide Sources;
  }

  /** Where name and colon of a field stand, and what follows the colon. */
  lemma NameLayout(x: Field, b: string, w: nat, rest: string) returns (k: nat, c: nat, v: nat)
    requires |b| > 0 && Blanks(x.before) && Pieces(x.name) && Blanks(x.beforeColon) && Blanks(x.afterColon)
    requires rest != [] && rest[0] > ' '
    requires Stands(b, w, Cat(x.before, Cat(Enclosed(x.name), Cat(x.beforeColon, Cat(":", Cat(x.afterColon, rest))))))
    ensures k == w + |x.before| && c == k + |Enclosed(x.name)| + |x.beforeColon| && v == c + 1 + |x.afterColon|
    ensures Skip(b, w) == k && Skip(b, k) == k && k < |b| && b[k] == '\"' && Stands(b, k, Enclosed(x.name))
    ensures Skip(b, k + |Enclosed(x.name)|) == c && c < |b| - 1 && b[c] == ':'
    ensures Skip(b, c + 1) == v && Stands(b, v, rest)
  {
    hide Stands, Skip, Enclosed, Blanks, Pieces, Cat;
    var blanks := Cat(x.afterColon, rest);
    var colon := Cat(":", blanks);
    var name := Enclosed(x.name);
    EnclosedOpens(x.name);
    CatHead(name, Cat(x.beforeColon, colon));
    CatHead(":", blanks);
    Passes(b, w, x.before, Cat(name, Cat(x.beforeColon, colon)));
    k := w + |x.before|;
    CatStands(b, k, name, Cat(x.beforeColon, colon));
    Passes(b, k + |name|, x.beforeColon, colon);
    c := k + |name| + |x.beforeColon|;
    CatStands(b, c, ":", blanks);
    Passes(b, c + 1, x.afterColon, rest);
    v := c + 1 + |x.afterColon|;
  }

  lemma FieldsText(fs: seq<Field>, rest: string, tail: string)
    requires fs != [] && ReadableFields(fs)
    requires tail == if |fs| == 1 then "}" else Cat(",", FieldsSource(fs[1..]) + "}")
    requires rest == Cat(Source(fs[0].value), Cat(fs[0].after, tail))
    ensures var x := fs[0];
      && FieldsSource(fs) + "}"
         == Cat(x.before, Cat(Enclosed(x.name), Cat(x.beforeColon, Cat(":", Cat(x.afterColon, rest)))))
      && |FieldsSource(fs)| == |x.before| + |Enclosed(x.name)| + |x.beforeColon| + 1 + |x.afterColon| + |rest| - 1
  {
    hide Source, Enclosed, Readable, Pieces, Blanks;
    var x := fs[0];
    var more := if |fs| == 1 then "" else "," + FieldsSource(fs[1..]);
    var value := Source(x.value) + (x.after + more);
    var colon := ":" + (x.afterColon + value);
    Regroup(x.before, Enclosed(x.name) + (x.beforeColon + colon), "}");
    Regroup(Enclosed(x.name), x.beforeColon + colon, "}");
    Regroup(x.beforeColon, colon, "}");
    Regroup(":", x.afterColon + value, "}");
    Regroup(x.afterColon, value, "}");
    Regroup(Source(x.value), x.after + more, "}");
    Regroup(x.after, more, "}");
    if |fs| > 1 {
      Regroup(",", FieldsSource(fs[1..]), "}");
    }
  }

  lemma FieldLayout(fs: seq<Field>, b: string, w: nat) returns (k: nat, c: nat, v: nat, e: nat, q: nat)
    requires |b| > 0 && fs != [] && ReadableFields(fs) && Stands(b, w, FieldsSource(fs) + "}")
    ensures k == w + |fs[0].before| && Skip(b, w) == k && Skip(b, k) == k && k < |b| && b[k] == '\"'
    ensures Stands(b, k, Enclosed(fs[0].name)) && Skip(b, k + |Enclosed(fs[0].name)|) == c
    ensures k < c < |b| - 1 && b[c] == ':' && Skip(b, c + 1) == v
    ensures Stands(b, v, Source(fs[0].value)) && e == v + |Source(fs[0].value)| && Ends(b, e)
    ensures Skip(b, e) == q && q < |b| && b[q] == if |fs| == 1 then '}' else ','
    ensures |fs| == 1 ==> q == w + |FieldsSource(fs)|
    ensures |fs| > 1 ==>
      && q + 1 < |b| && Stands(b, q + 1, FieldsSource(fs[1..]) + "}")
      && w + |FieldsSource(fs)| == q + 1 + |FieldsSource(fs[1..])|
  {
    hide Source, FieldsSource, Stands, Skip, Opening, Readable, Enclosed, Blanks, Pieces, NumberChar, Ends, Cat;
    var x := fs[0];
    var tail := if |fs| == 1 then "}" else Cat(",", FieldsSource(fs[1..]) + "}");
    var behind := Cat(x.after, tail);
    var rest := Cat(Source(x.value), behind);
    FieldsText(fs, rest, tail);
    SourceOpens(x.value);
    CatHead(Source(x.value), behind);
    OpeningIsBlack(rest[0]);
    EnclosedOpens(x.name);
    k, c, v := NameLayout(x, b, w, rest);
    CatStands(b, v, Source(x.value), behind);
    e := v + |Source(x.value)|;
    q := ValueEnds(b, e, x.after, tail, if |fs| == 1 then '}' else ',');
    if |fs| > 1 {
      CatStands(b, q, ",", FieldsSource(fs[1..]) + "}");
    }
  }

  /** The members from the brace or comma at p on. */
  lemma {:induction false} FieldsParse(fs: seq<Field>, b: string, p: nat, w: nat, depth: nat)
    requires Terminated(b) && fs != [] && ReadableFields(fs) && depth <= NESTING_LIMIT
    requires p < |b| - 1 && Stands(b, w, FieldsSource(fs) + "}") && Skip(b, p + 1) == Skip(b, w)
    ensures ParseMembers(b, p, depth)
         == Outcome(depth + HeightMembers(Members(fs)) <= NESTING_LIMIT, Members(fs), w + |FieldsSource(fs)| + 1)
    decreases fs, 0
  {
    hide ParseMembers, ParseValue, ParseString, Source, FieldsSource, ValueOf, Members, Skip, Stands, Height,
      HeightMembers, Readable, ReadableFields, Ends, Enclosed, Meanings, CString;
    var k, c, v, e, q := FieldLayout(fs, b, w);
    MembersParts(fs);
    MembersParts(fs[1..]);
    HeightParts([], Members(fs));
    HeightParts([], Members(fs[1..]));
    EnclosedParses(b, k, fs[0].name);
    SyntaxParses(fs[0].value, b, v, depth);
    MembersStep(b, p, depth, CString(Meanings(fs[0].name)), c);
    if |fs| > 1 {
      FieldsParse(fs[1..], b, q, q + 1, depth);
    }
  }

  lemma BracesText(t: Syntax)
    requires t.Braces? && Readable(t)
    ensures Blanks(t.gap) && ReadableFields(t.fields) && ValueOf(t) == Obj(Members(t.fields))
    ensures Source(t) == "{" + ((if t.fields == [] then t.gap else FieldsSource(t.fields)) + "}")
  {
  }

  lemma BracesParse(t: Syntax, b: string, p: nat, depth: nat)
    requires Terminated(b) && t.Braces? && Readable(t) && depth <= NESTING_LIMIT && Stands(b, p, Source(t))
    ensures ParseValue(b, p, depth)
         == Outcome(depth + Height(ValueOf(t)) <= NESTING_LIMIT, ValueOf(t), p + |Source(t)|)
    decreases t, 0
  {
    hide ParseMembers, ParseValue, Source, FieldsSource, ValueOf, Members, Skip, Stands, Height, HeightMembers,
      Readable, ReadableFields, Blanks, Ends, Enclosed;
    BracesText(t);
    var fs := t.fields;
    var inner := if fs == [] then t.gap else FieldsSource(fs);
    StandsParts(b, p, "{", inner + "}");
    StandsChar(b, p, '{');
    StandsInside(b, p + 1, inner + "}");
    HeightParts([], Members(fs));
    if depth == NESTING_LIMIT {
      TooDeepHere(b, p, depth);
    } else {
      BraceBranch(b, p, depth);
      if fs == [] {
        assert t.gap + "}" == Cat(t.gap, "}");
        Passes(b, p + 1, t.gap, "}");
        MembersParts(fs);
      } else {
        var k, c, v, e, q := FieldLayout(fs, b, p + 1);
        FieldsParse(fs, b, k - 1, p + 1, depth + 1);
      }
    }
  }

  /** At any place and depth, the text of a tree parses to its value and the parser stops right behind it; nested too
      deep, wherever the deep part is, it is refused. */
  lemma {:induction false} SyntaxParses(t: Syntax, b: string, p: nat, depth: nat)
    requires Terminated(b) && Readable(t) && depth <= NESTING_LIMIT
    requires Stands(b, p, Source(t)) && Ends(b, p + |Source(t)|)
    ensures ParseValue(b, p, depth)
         == Outcome(depth + Height(ValueOf(t)) <= NESTING_LIMIT, ValueOf(t), p + |Source(t)|)
    decreases t, 1
  {
    hide ParseValue, Source, Height, Readable, ValueOf, Stands, Ends;
    match t
    case Brackets(_, _) => BracketsParse(t, b, p, depth);
    case Braces(_, _) => BracesParse(t, b, p, depth);
    case _ => LeafParses(t, b, p, depth);
  }

  // ---------------------------------------------------------------- whole texts

  lemma NoBom(b: string)
    requires b != [] && b[0] <= '~'
    ensures SkipBom(b) == 0
  {
    assert |b| > 4 ==> b[..3][0] == b[0];
  }

  lemma ParseBegins(text: string)
    requires text != [] && text[0] <= '~'
    ensures var b := text + ['\0']; Parse(text) == ParseValue(b, Skip(b, 0), 0)
  {
    hide ParseValue, Skip;
    NoBom(text + ['\0']);
  }

  /** A text of a readable tree between blanks: its value, and the end of the parse right behind the tree, with only
      blanks left; nested deeper than NESTING_LIMIT, and only then, it is refused. */
  lemma TextParses(before: string, t: Syntax, after: string)
    requires Blanks(before) && Readable(t) && Blanks(after)
    ensures var text, next := before + (Source(t) + after), |before| + |Source(t)|;
      && Parse(text) == Outcome(Height(ValueOf(t)) <= NESTING_LIMIT, ValueOf(t), next)
      && Skip(text + ['\0'], next) == |text|
  {
    hide Source, Parse, ParseValue, Height, Readable, ValueOf, Skip, Opening, NumberChar, Stands, Blanks, Outcome;
    var source, end := Source(t), after + ['\0'];
    var text := before + (source + after);
    var b, next := text + ['\0'], |before| + |source|;
    SourceOpens(t);
    OpeningIsBlack(source[0]);
    Regroup(before, source + after, ['\0']);
    Regroup(source, after, ['\0']);
    StandsWhole(b);
    BlanksLow(before, source + after);
    ParseBegins(text);
    Heads(source, end);
    assert before + (source + end) == Cat(before, source + end);
    Passes(b, 0, before, source + end);
    StandsParts(b, |before|, source, end);
    StandsHead(b, next, end);
    BlanksEndBlack(after);
    SyntaxParses(t, b, |before|, 0);
    SkipsToEnd(b, next, end);
  }

  lemma StandsWhole(b: string)
    ensures Stands(b, 0, b)
  {
    assert b[0..0 + |b|] == b;
  }

  lemma BlanksLow(s: string, rest: string)
    requires Blanks(s) && rest != [] && Opening(rest[0])
    ensures (s + rest)[0] <= '~'
  {
  }

  lemma BlanksEndBlack(after: string)
    requires Blanks(after)
    ensures !NumberChar((after + ['\0'])[0]) && Blanks(after + ['\0'])
  {
  }

  lemma SkipsToEnd(b: string, p: nat, s: string)
    requires |b| > 0 && Stands(b, p, s) && p + |s| == |b| && Blanks(s)
    ensures Skip(b, p) == |b| - 1
  {
    SkipBlanks(b, p, s);
  }
}
