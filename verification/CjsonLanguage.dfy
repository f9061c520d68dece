/** The language of cJSON_Parse: every text it accepts is the text of a syntax tree with the value it returns. */
module CjsonLanguage {
  import opened Wrappers
  import opened CjsonKeys
  import opened CjsonString
  import opened CjsonText
  import opened CjsonGrammar
  import opened CjsonBom

  // ---------------------------------------------------------------- what stands where

  lemma SliceStands(b: string, p: nat, q: nat)
    requires p <= q <= |b|
    ensures Stands(b, p, b[p..q]) && |b[p..q]| == q - p
  {
  }

  lemma CatJoins(b: string, p: nat, s: string, t: string)
    requires Stands(b, p, s) && Stands(b, p + |s|, t)
    ensures Stands(b, p, Cat(s, t))
  {
    assert b[p..p + |s| + |t|] == b[p..p + |s|] + b[p + |s|..p + |s| + |t|];
  }

  lemma SlicesJoin(b: string, p: nat, q: nat, r: nat)
    requires p <= q <= r <= |b|
    ensures b[p..r] == b[p..q] + b[q..r]
  {
  }

  /** What is skipped are blanks. */
  lemma {:induction false} Skipped(b: string, p: nat)
    requires p < |b|
    ensures p <= Skip(b, p) < |b| && Blanks(b[p..Skip(b, p)])
    decreases |b| - p
  {
    var q := Skip(b, p);
    if b[p] <= ' ' && p + 1 < |b| {
      Skipped(b, p + 1);
      SlicesJoin(b, p, p + 1, q);
    }
  }

  lemma BlanksJoin(s: string, t: string)
    requires Blanks(s) && Blanks(t)
    ensures Blanks(s + t)
  {
  }

  // ---------------------------------------------------------------- literals

  lemma {:induction false} Scanned(b: string, p: nat)
    requires ClosingQuote(b, p).Some?
    ensures Scans(b[p..ClosingQuote(b, p).value])
    decreases |b| - p
  {
    var e := ClosingQuote(b, p).value;
    if b[p] != '\"' {
      var n := if b[p] == '\\' then 2 else 1;
      Scanned(b, p + n);
      assert b[p..e][n..] == b[p + n..e];
    }
  }

  lemma UnitTaken(b: string, p: nat, end: nat)
    requires p < end < |b| && b[p] == '\\' && b[p + 1] == 'u' && Literal(b, p, end).Some?
    requires Literal(b, p, end).value.1 == 6
    ensures p + 6 <= end && Unit(b[p + 2..p + 6]).Taken() && Stands(b, p, Unit(b[p + 2..p + 6]).Source())
    ensures Literal(b, p, end) == Some((Unit(b[p + 2..p + 6]).Meaning(), 6))
  {
    hide Hex4, Utf8;
    var h := b[p + 2..p + 6];
    Hex4At(b, p + 2, h);
    assert b[p..p + 6] == ['\\', 'u'] + h;
  }

  lemma PairTaken(b: string, p: nat, end: nat)
    requires p < end < |b| && b[p] == '\\' && b[p + 1] == 'u' && Literal(b, p, end).Some?
    requires Literal(b, p, end).value.1 == 12
    ensures p + 12 <= end
    ensures var x := Pair(b[p + 2..p + 6], b[p + 8..p + 12]);
      x.Taken() && Stands(b, p, x.Source()) && Literal(b, p, end) == Some((x.Meaning(), 12))
  {
    hide Hex4, Utf8;
    var h, l := b[p + 2..p + 6], b[p + 8..p + 12];
    Hex4At(b, p + 2, h);
    Hex4At(b, p + 8, l);
    LowBits(Hex4(h, 0), 0xd800);
    LowBits(Hex4(l, 0), 0xdc00);
    assert b[p..p + 12] == ['\\', 'u'] + h + ['\\', 'u'] + l;
  }

  /** Each step of the second pass takes a piece. */
  lemma PieceTaken(b: string, p: nat, end: nat) returns (x: Piece)
    requires p < end < |b| && b[end] == '\"' && Take(b, p, end).Some?
    ensures x.Taken()
    ensures if x.Dangling? then p + 1 == end && b[p] == '\\' && Take(b, p, end) == Some((['\"'], 2))
      else p + |x.Source()| <= end && Stands(b, p, x.Source()) && Take(b, p, end) == Some((x.Meaning(), |x.Source()|))
  {
    hide Literal, Unescape;
    if b[p] != '\\' {
      x := Byte(b[p]);
    } else if b[p + 1] == 'u' {
      if Literal(b, p, end).value.1 == 6 {
        x := Unit(b[p + 2..p + 6]);
        UnitTaken(b, p, end);
      } else {
        x := Pair(b[p + 2..p + 6], b[p + 8..p + 12]);
        PairTaken(b, p, end);
      }
    } else if p + 1 == end {
      x := Dangling;
      QuoteUnescaped();
    } else {
      x := Short(b[p + 1]);
      assert b[p..p + 2] == ['\\', b[p + 1]];
    }
  }

  lemma QuoteUnescaped()
    ensures Unescape('\"') == Some('\"')
  {
  }

  lemma NoneTaken()
    ensures AllTaken([])
  {
  }

  lemma OnePiece(x: Piece)
    requires x.Taken()
    ensures AllTaken([x]) && Sources([x]) == x.Source() && Meanings([x]) == x.Meaning()
  {
    NoPieces();
    var nothing: seq<Piece> := [];
    assert [x][1..] == nothing;
    assert x.Source() + "" == x.Source() && x.Meaning() + "" == x.Meaning();
  }

  lemma LastDangles(b: string, p: nat)
    requires p + 1 < |b| && b[p] == '\\' && b[p + 1] == '\"'
    ensures AllTaken([Dangling]) && Sources([Dangling]) == b[p..p + 1]
    ensures Some(Meanings([Dangling])) == Decode(b, p, p + 1)
  {
    hide Decode, Sources, Meanings;
    OnePiece(Dangling);
    DanglingDecodes(b, p);
    assert b[p..p + 1] == ['\\'];
  }

  lemma PieceInFront(x: Piece, ps: seq<Piece>)
    requires x.Taken() && !x.Dangling? && AllTaken(ps)
    ensures AllTaken([x] + ps)
    ensures Sources([x] + ps) == x.Source() + Sources(ps) && Meanings([x] + ps) == x.Meaning() + Meanings(ps)
  {
    hide Piece.Source, Piece.Meaning, Piece.Taken;
    var all := [x] + ps;
    assert all[1..] == ps;
    forall i | 0 <= i < |all| ensures all[i].Taken() && (all[i].Dangling? ==> i == |all| - 1) {
      if i > 0 {
        assert all[i] == ps[i - 1];
      }
    }
  }

  lemma PiecesJoin(b: string, p: nat, end: nat, x: Piece, rest: seq<Piece>)
    requires p < end < |b| && x.Taken() && !x.Dangling? && AllTaken(rest)
    requires var q := p + |x.Source()|;
      q <= end && Stands(b, p, x.Source()) && Take(b, p, end) == Some((x.Meaning(), |x.Source()|))
      && Sources(rest) == b[q..end] && Some(Meanings(rest)) == Decode(b, q, end)
    ensures AllTaken([x] + rest) && Sources([x] + rest) == b[p..end]
    ensures Decode(b, p, end) == Some(Meanings([x] + rest))
  {
    hide Take, Decode, Sources, Meanings, Piece.Taken, Piece.Source, Piece.Meaning, AllTaken;
    var q := p + |x.Source()|;
    PieceInFront(x, rest);
    SlicesJoin(b, p, q, end);
    DecodeStep(b, p, end, x.Meaning(), |x.Source()|, Meanings(rest));
  }

  lemma DecodeParts(b: string, p: nat, end: nat)
    requires p < end < |b| && Decode(b, p, end).Some?
    ensures Take(b, p, end).Some?
    ensures var (octets, taken) := Take(b, p, end).value;
      Decode(b, p + taken, end).Some? && Decode(b, p, end).value == octets + Decode(b, p + taken, end).value
  {
    hide Take;
  }

  lemma {:induction false} PiecesTaken(b: string, p: nat, end: nat) returns (ps: seq<Piece>)
    requires p <= end < |b| && b[end] == '\"' && Decode(b, p, end).Some?
    ensures AllTaken(ps) && Sources(ps) == b[p..end] && Meanings(ps) == Decode(b, p, end).value
    decreases end - p
  {
    hide Take, Decode, Sources, Meanings, Stands, Piece.Taken, Piece.Source, Piece.Meaning, AllTaken;
    ps := [];
    if p == end {
      NoPieces();
      NothingToDecode(b, p);
      NoneTaken();
    } else {
      DecodeParts(b, p, end);
      var x := PieceTaken(b, p, end);
      if x.Dangling? {
        ps := [x];
        LastDangles(b, p);
      } else {
        var rest := PiecesTaken(b, p + |x.Source()|, end);
        ps := [x] + rest;
        PiecesJoin(b, p, end, x, rest);
      }
    }
  }

  lemma LiteralSyntax(b: string, p: nat) returns (ps: seq<Piece>)
    requires Terminated(b) && p < |b| && ParseString(b, p).Done?
    ensures Pieces(ps) && Stands(b, p, Enclosed(ps))
    ensures ParseString(b, p) == Done(CString(Meanings(ps)), p + |Enclosed(ps)|)
  {
    hide Decode, ClosingQuote, Scans, Sources, Meanings, CString;
    var e := ClosingQuote(b, p + 1).value;
    Scanned(b, p + 1);
    ps := PiecesTaken(b, p + 1, e);
    assert b[p..e + 1] == ['\"'] + b[p + 1..e] + ['\"'];
  }

  // ---------------------------------------------------------------- numbers and words

  lemma NumberSyntax(b: string, p: nat)
    requires Terminated(b) && p < |b| && (b[p] == '-' || IsDigit(b[p]))
    requires ParseNumber(b, p).Done? && Ends(b, ParseNumber(b, p).next)
    ensures var t := b[p..ParseNumber(b, p).next]; NumeralOk(t) && ParseNumber(b, p).value == Number(t)
  {
    hide StrtodLength;
    var n := NumberRun(b, p, 63);
    var k := StrtodLength(b[p..p + n]);
    var t := b[p..p + n];
    assert forall i :: 0 <= i < n ==> t[i] == b[p + i];
  }

  lemma LeafSyntax(b: string, p: nat, depth: nat) returns (t: Syntax)
    requires Terminated(b) && p < |b| && b[p] != '[' && b[p] != '{'
    requires ParseValue(b, p, depth).Done? && Ends(b, ParseValue(b, p, depth).next)
    ensures Readable(t) && Stands(b, p, Source(t))
    ensures ParseValue(b, p, depth) == Done(ValueOf(t), p + |Source(t)|)
  {
    hide ParseString, ParseNumber, Enclosed, Pieces, NumeralOk, NumberChar, Meanings, CString;
    if Starts(b, p, "null") {
      t := NullWord;
    } else if Starts(b, p, "false") {
      t := FalseWord;
    } else if Starts(b, p, "true") {
      t := TrueWord;
    } else if b[p] == '\"' {
      var ps := LiteralSyntax(b, p);
      t := Quoted(ps);
    } else {
      NumberSyntax(b, p);
      t := Numeral(b[p..ParseNumber(b, p).next]);
    }
  }

  // ---------------------------------------------------------------- arrays and objects

  lemma OneElement(e: Element)
    requires Blanks(e.before) && Readable(e.value) && Blanks(e.after)
    ensures ReadableElements([e]) && Values([e]) == [ValueOf(e.value)]
  {
    hide Readable, Blanks, ValueOf;
    var nothing: seq<Element> := [];
    assert [e][1..] == nothing;
    assert ReadableElements(nothing) && Values(nothing) == [];
  }

  lemma ElementInFront(e: Element, es: seq<Element>)
    requires Blanks(e.before) && Readable(e.value) && Blanks(e.after) && ReadableElements(es)
    ensures ReadableElements([e] + es) && Values([e] + es) == [ValueOf(e.value)] + Values(es)
  {
    hide Readable, Blanks, ValueOf;
    assert ([e] + es)[1..] == es;
  }

  lemma ItemsParts(b: string, p: nat, depth: nat) returns (k: nat, e: nat, q: nat)
    requires Terminated(b) && p < |b| - 1 && ParseItems(b, p, depth).Done?
    ensures k == Skip(b, p + 1) && p < k < |b| && ParseValue(b, k, depth).Done?
    ensures e == ParseValue(b, k, depth).next && k < e < |b| && q == Skip(b, e)
    ensures e <= q < |b| && (b[q] == ']' || b[q] == ',')
    ensures var v := ParseValue(b, k, depth).value;
      if b[q] == ']' then ParseItems(b, p, depth) == Done([v], q + 1)
      else q < |b| - 1 && ParseItems(b, q, depth).Done?
           && ParseItems(b, p, depth) == Done([v] + ParseItems(b, q, depth).value, ParseItems(b, q, depth).next)
  {
    hide ParseValue, Skip;
    k := Skip(b, p + 1);
    e := ParseValue(b, k, depth).next;
    q := Skip(b, e);
  }

  /** A value in front of blanks and a mark of punctuation. */
  lemma EndsInside(b: string, e: nat)
    requires e < |b| && (b[Skip(b, e)] == ',' || b[Skip(b, e)] == ']' || b[Skip(b, e)] == '}')
    ensures Ends(b, e)
  {
  }

  /** The elements behind the bracket or comma at p, with blanks that stand there from w on. */
  lemma {:induction false} ItemsSyntax(b: string, p: nat, w: nat, depth: nat) returns (es: seq<Element>)
    requires Terminated(b) && p < |b| - 1 && ParseItems(b, p, depth).Done?
    requires w <= p + 1 && Blanks(b[w..p + 1])
    ensures es != [] && ReadableElements(es) && Stands(b, w, ElementsSource(es) + "]")
    ensures ParseItems(b, p, depth) == Done(Values(es), w + |ElementsSource(es)| + 1)
    decreases |b| - p, 0
  {
    hide ParseItems, ParseValue, Skip, Stands, Readable, ReadableElements, ElementsSource, Source, Values, ValueOf,
      Blanks, Ends;
    var k, e, q := ItemsParts(b, p, depth);
    Skipped(b, p + 1);
    SlicesJoin(b, w, p + 1, k);
    BlanksJoin(b[w..p + 1], b[p + 1..k]);
    Skipped(b, e);
    EndsInside(b, e);
    var t := ValueSyntax(b, k, depth);
    var x := Element(b[w..k], t, b[e..q]);
    if b[q] == ']' {
      es := [x];
      OneElement(x);
      ElementStands(es, b, w, k, q);
    } else {
      BlanksNone(b, q + 1);
      var rest := ItemsSyntax(b, q, q + 1, depth);
      es := [x] + rest;
      ElementInFront(x, rest);
      assert es[1..] == rest;
      ElementStands(es, b, w, k, q);
    }
  }

  lemma BlanksNone(b: string, p: nat)
    requires p <= |b|
    ensures Blanks(b[p..p])
  {
  }

  lemma CharStands(b: string, q: nat)
    requires q < |b|
    ensures Stands(b, q, [b[q]])
  {
  }

  lemma ValueStands(t: Syntax, after: string, b: string, v: nat, q: nat, tail: string)
    requires Readable(t) && Stands(b, v, Source(t)) && Stands(b, q, tail)
    requires var e := v + |Source(t)|; e <= q <= |b| && after == b[e..q]
    ensures Stands(b, v, Cat(Source(t), Cat(after, tail)))
  {
    hide Readable, Source, Stands, Cat;
    var e := v + |Source(t)|;
    SliceStands(b, e, q);
    CatJoins(b, e, after, tail);
    CatJoins(b, v, Source(t), Cat(after, tail));
  }

  lemma ElementStands(es: seq<Element>, b: string, w: nat, k: nat, q: nat)
    requires es != [] && ReadableElements(es) && w <= k <= q < |b| && es[0].before == b[w..k]
    requires Stands(b, k, Source(es[0].value))
    requires var e := k + |Source(es[0].value)|; e <= q && es[0].after == b[e..q]
    requires if |es| == 1 then b[q] == ']' else b[q] == ',' && Stands(b, q + 1, ElementsSource(es[1..]) + "]")
    ensures Stands(b, w, ElementsSource(es) + "]")
    ensures w + |ElementsSource(es)| == if |es| == 1 then q else q + 1 + |ElementsSource(es[1..])|
  {
    hide ElementsSource, Source, Readable, Blanks, Stands, Cat;
    var x := es[0];
    var tail := if |es| == 1 then "]" else Cat(",", ElementsSource(es[1..]) + "]");
    ElementsText(es, tail);
    CharStands(b, q);
    if |es| > 1 {
      CatJoins(b, q, ",", ElementsSource(es[1..]) + "]");
    }
    ValueStands(x.value, x.after, b, k, q, tail);
    SliceStands(b, w, k);
    CatJoins(b, w, x.before, Cat(Source(x.value), Cat(x.after, tail)));
  }

  lemma OneField(f: Field)
    requires Blanks(f.before) && Pieces(f.name) && Blanks(f.beforeColon) && Blanks(f.afterColon)
    requires Readable(f.value) && Blanks(f.after)
    ensures ReadableFields([f]) && Members([f]) == [Member(CString(Meanings(f.name)), ValueOf(f.value))]
  {
    hide Readable, Blanks, ValueOf, Pieces, CString, Meanings;
    var nothing: seq<Field> := [];
    assert [f][1..] == nothing;
    assert ReadableFields(nothing) && Members(nothing) == [];
  }

  lemma FieldInFront(f: Field, fs: seq<Field>)
    requires Blanks(f.before) && Pieces(f.name) && Blanks(f.beforeColon) && Blanks(f.afterColon)
    requires Readable(f.value) && Blanks(f.after) && ReadableFields(fs)
    ensures ReadableFields([f] + fs)
    ensures Members([f] + fs) == [Member(CString(Meanings(f.name)), ValueOf(f.value))] + Members(fs)
  {
    hide Readable, Blanks, ValueOf, Pieces, CString, Meanings;
    assert ([f] + fs)[1..] == fs;
  }

  lemma MembersPlaces(b: string, p: nat, depth: nat) returns (k: nat, n: nat, c: nat, v: nat, e: nat, q: nat)
    requires Terminated(b) && p < |b| - 1 && ParseMembers(b, p, depth).Done?
    ensures k == Skip(b, p + 1) && p < k < |b| && ParseString(b, k).Done?
    ensures n == ParseString(b, k).next && k < n < |b| && c == Skip(b, n) && n <= c < |b| - 1 && b[c] == ':'
    ensures v == Skip(b, c + 1) && c < v < |b| && ParseValue(b, v, depth).Done?
    ensures e == ParseValue(b, v, depth).next && v < e < |b| && q == Skip(b, e)
    ensures e <= q < |b| && (b[q] == '}' || b[q] == ',')
    ensures var m := Member(ParseString(b, k).value, ParseValue(b, v, depth).value);
      if b[q] == '}' then ParseMembers(b, p, depth) == Done([m], q + 1)
      else q < |b| - 1 && ParseMembers(b, q, depth).Done?
           && ParseMembers(b, p, depth) == Done([m] + ParseMembers(b, q, depth).value, ParseMembers(b, q, depth).next)
  {
    hide ParseValue, ParseString, Skip;
    k := Skip(b, p + 1);
    n := ParseString(b, k).next;
    c := Skip(b, n);
    v := Skip(b, c + 1);
    e := ParseValue(b, v, depth).next;
    q := Skip(b, e);
  }

  lemma {:induction false} MembersSyntax(b: string, p: nat, w: nat, depth: nat) returns (fs: seq<Field>)
    requires Terminated(b) && p < |b| - 1 && ParseMembers(b, p, depth).Done?
    requires w <= p + 1 && Blanks(b[w..p + 1])
    ensures fs != [] && ReadableFields(fs) && Stands(b, w, FieldsSource(fs) + "}")
    ensures ParseMembers(b, p, depth) == Done(Members(fs), w + |FieldsSource(fs)| + 1)
    decreases |b| - p, 0
  {
    hide ParseMembers, ParseValue, ParseString, Skip, Stands, Readable, ReadableFields, FieldsSource, Source, Members,
      ValueOf, Blanks, Ends, Pieces, Enclosed, Meanings, CString;
    var k, n, c, v, e, q := MembersPlaces(b, p, depth);
    Skipped(b, p + 1);
    SlicesJoin(b, w, p + 1, k);
    BlanksJoin(b[w..p + 1], b[p + 1..k]);
    var name := LiteralSyntax(b, k);
    Skipped(b, n);
    Skipped(b, c + 1);
    Skipped(b, e);
    EndsInside(b, e);
    var t := ValueSyntax(b, v, depth);
    var x := Field(b[w..k], name, b[n..c], b[c + 1..v], t, b[e..q]);
    if b[q] == '}' {
      fs := [x];
      OneField(x);
      FieldStands(fs, b, w, k, c, v, q);
    } else {
      BlanksNone(b, q + 1);
      var rest := MembersSyntax(b, q, q + 1, depth);
      fs := [x] + rest;
      FieldInFront(x, rest);
      assert fs[1..] == rest;
      FieldStands(fs, b, w, k, c, v, q);
    }
  }

  lemma FieldStands(fs: seq<Field>, b: string, w: nat, k: nat, c: nat, v: nat, q: nat)
    requires fs != [] && ReadableFields(fs) && w <= k <= c < v <= q < |b| && fs[0].before == b[w..k]
    requires Stands(b, k, Enclosed(fs[0].name))
    requires var n := k + |Enclosed(fs[0].name)|; n <= c && fs[0].beforeColon == b[n..c]
    requires b[c] == ':' && fs[0].afterColon == b[c + 1..v] && Stands(b, v, Source(fs[0].value))
    requires var e := v + |Source(fs[0].value)|; e <= q && fs[0].after == b[e..q]
    requires if |fs| == 1 then b[q] == '}' else b[q] == ',' && Stands(b, q + 1, FieldsSource(fs[1..]) + "}")
    ensures Stands(b, w, FieldsSource(fs) + "}")
    ensures w + |FieldsSource(fs)| == if |fs| == 1 then q else q + 1 + |FieldsSource(fs[1..])|
  {
    hide FieldsSource, Source, Enclosed, Readable, Blanks, Pieces, Stands, Cat;
    var x := fs[0];
    var tail := if |fs| == 1 then "}" else Cat(",", FieldsSource(fs[1..]) + "}");
    var rest := Cat(Source(x.value), Cat(x.after, tail));
    FieldsText(fs, rest, tail);
    CharStands(b, q);
    if |fs| > 1 {
      CatJoins(b, q, ",", FieldsSource(fs[1..]) + "}");
    }
    ValueStands(x.value, x.after, b, v, q, tail);
    NameStands(x, b, w, k, c, v, rest);
  }

  /** The parts of a field up to its value. */
  lemma NameStands(x: Field, b: string, w: nat, k: nat, c: nat, v: nat, rest: string)
    requires Pieces(x.name) && w <= k <= c < v <= |b| && x.before == b[w..k] && Stands(b, k, Enclosed(x.name))
    requires var n := k + |Enclosed(x.name)|; n <= c && x.beforeColon == b[n..c]
    requires b[c] == ':' && x.afterColon == b[c + 1..v] && Stands(b, v, rest)
    ensures Stands(b, w, Cat(x.before, Cat(Enclosed(x.name), Cat(x.beforeColon, Cat(":", Cat(x.afterColon, rest))))))
    ensures w + |x.before| + |Enclosed(x.name)| + |x.beforeColon| + 1 + |x.afterColon| == v
  {
    hide Enclosed, Pieces, Stands, Cat;
    var blanks := Cat(x.afterColon, rest);
    var colon := Cat(":", blanks);
    var n := k + |Enclosed(x.name)|;
    SliceStands(b, c + 1, v);
    CatJoins(b, c + 1, x.afterColon, rest);
    CharStands(b, c);
    CatJoins(b, c, ":", blanks);
    SliceStands(b, n, c);
    CatJoins(b, n, x.beforeColon, colon);
    CatJoins(b, k, Enclosed(x.name), Cat(x.beforeColon, colon));
    SliceStands(b, w, k);
    CatJoins(b, w, x.before, Cat(Enclosed(x.name), Cat(x.beforeColon, colon)));
  }

  lemma GapSource(b: string, p: nat, q: nat)
    requires p < q < |b| && Blanks(b[p + 1..q])
    ensures b[p] == '[' && b[q] == ']' ==>
      var t := Brackets(b[p + 1..q], []);
      Readable(t) && Stands(b, p, Source(t)) && p + |Source(t)| == q + 1 && ValueOf(t) == Arr([])
    ensures b[p] == '{' && b[q] == '}' ==>
      var t := Braces(b[p + 1..q], []);
      Readable(t) && Stands(b, p, Source(t)) && p + |Source(t)| == q + 1 && ValueOf(t) == Obj([])
  {
    assert b[p..q + 1] == [b[p]] + (b[p + 1..q] + [b[q]]);
  }

  lemma BracketsSyntax(b: string, p: nat, depth: nat) returns (t: Syntax)
    requires Terminated(b) && p < |b| && b[p] == '[' && ParseValue(b, p, depth).Done?
    ensures Readable(t) && Stands(b, p, Source(t))
    ensures ParseValue(b, p, depth) == Done(ValueOf(t), p + |Source(t)|)
    decreases |b| - p, 1
  {
    hide ParseItems, ParseValue, Skip, Stands, Readable, ReadableElements, ElementsSource, Source, Values, ValueOf,
      Blanks;
    if depth >= NESTING_LIMIT {
      TooDeepHere(b, p, depth);
    } else {
      BracketBranch(b, p, depth);
      BehindBracket(b, p);
      var q := Skip(b, p + 1);
      Skipped(b, p + 1);
      if b[q] == ']' {
        t := Brackets(b[p + 1..q], []);
        GapSource(b, p, q);
      } else {
        var es := ItemsSyntax(b, q - 1, p + 1, depth + 1);
        t := Brackets("", es);
        BracketsReadable(es);
        BracketsText(t);
        CharStands(b, p);
        CatJoins(b, p, "[", ElementsSource(es) + "]");
      }
    }
  }

  lemma BehindBracket(b: string, p: nat)
    requires Terminated(b) && p < |b| && (b[p] == '[' || b[p] == '{')
    ensures p + 1 < |b|
  {
  }

  lemma BracketsReadable(es: seq<Element>)
    requires ReadableElements(es)
    ensures Readable(Brackets("", es))
  {
  }

  lemma BracesReadable(fs: seq<Field>)
    requires ReadableFields(fs)
    ensures Readable(Braces("", fs))
  {
  }

  lemma BracesSyntax(b: string, p: nat, depth: nat) returns (t: Syntax)
    requires Terminated(b) && p < |b| && b[p] == '{' && ParseValue(b, p, depth).Done?
    ensures Readable(t) && Stands(b, p, Source(t))
    ensures ParseValue(b, p, depth) == Done(ValueOf(t), p + |Source(t)|)
    decreases |b| - p, 1
  {
    hide ParseMembers, ParseValue, Skip, Stands, Readable, ReadableFields, FieldsSource, Source, Members, ValueOf,
      Blanks;
    if depth >= NESTING_LIMIT {
      TooDeepHere(b, p, depth);
    } else {
      BraceBranch(b, p, depth);
      BehindBracket(b, p);
      var q := Skip(b, p + 1);
      Skipped(b, p + 1);
      if b[q] == '}' {
        t := Braces(b[p + 1..q], []);
        GapSource(b, p, q);
      } else {
        var fs := MembersSyntax(b, q - 1, p + 1, depth + 1);
        t := Braces("", fs);
        BracesReadable(fs);
        BracesText(t);
        CharStands(b, p);
        CatJoins(b, p, "{", FieldsSource(fs) + "}");
      }
    }
  }

  /** Whatever is parsed is the text of a tree with the value returned, if no number goes on behind it. */
  lemma {:induction false} ValueSyntax(b: string, p: nat, depth: nat) returns (t: Syntax)
    requires Terminated(b) && p < |b| && ParseValue(b, p, depth).Done? && Ends(b, ParseValue(b, p, depth).next)
    ensures Readable(t) && Stands(b, p, Source(t))
    ensures ParseValue(b, p, depth) == Done(ValueOf(t), p + |Source(t)|)
    decreases |b| - p, 2
  {
    hide ParseValue, Stands, Readable, Source, ValueOf, Ends;
    if b[p] == '[' {
      t := BracketsSyntax(b, p, depth);
    } else if b[p] == '{' {
      t := BracesSyntax(b, p, depth);
    } else {
      t := LeafSyntax(b, p, depth);
    }
  }

  // ---------------------------------------------------------------- whole texts

  function WholeText(mark: string, before: string, t: Syntax, after: string): string
    requires Readable(t)
  {
    mark + (before + (Source(t) + after))
  }

  /** Perhaps a byte order mark, blanks, a value v that is not nested too deep, and blanks. */
  ghost predicate Valid(text: string, v: Json) {
    && Height(v) <= NESTING_LIMIT
    && exists mark, before, t: Syntax, after ::
         && Readable(t) && WholeText(mark, before, t, after) == text && ValueOf(t) == v
         && (mark == MARK || mark == []) && Blanks(before) && Blanks(after)
  }

  /** What cJSON_ParseWithOpts accepts when nothing but blanks may follow the value. */
  predicate Accepted(text: string, v: Json) {
    var r := Parse(text);
    r.Done? && r.value == v && Skip(text + ['\0'], r.next) == |text|
  }

  lemma SkipBomIs(text: string) returns (mark: string)
    ensures (mark == MARK || mark == []) && SkipBom(text + ['\0']) == |mark| && |mark| <= |text|
    ensures text[..|mark|] == mark
  {
    var b := text + ['\0'];
    if SkipBom(b) == 3 {
      mark := MARK;
      assert text[..3] == b[..3];
    } else {
      mark := [];
    }
  }

  lemma AcceptedEnds(b: string, q: nat)
    requires Terminated(b) && q < |b| && Skip(b, q) == |b| - 1
    ensures Ends(b, q)
  {
  }

  lemma AcceptedIsValid(text: string, v: Json)
    requires Accepted(text, v)
    ensures Valid(text, v)
  {
    hide ParseValue, Skip, SkipBom, Readable, Source, ValueOf, Height, Stands, Blanks;
    var b := text + ['\0'];
    var mark := SkipBomIs(text);
    var p := Skip(b, |mark|);
    var q := Parse(text).next;
    Skipped(b, |mark|);
    Skipped(b, q);
    AcceptedEnds(b, q);
    var t := ValueSyntax(b, p, 0);
    SyntaxParses(t, b, p, 0);
    var before, after := b[|mark|..p], b[q..|text|];
    TextFits(text, mark, before, t, after);
    assert WholeText(mark, before, t, after) == text;
  }

  lemma TextFits(text: string, mark: string, before: string, t: Syntax, after: string)
    requires Readable(t)
    requires var b := text + ['\0'];
      var p := |mark| + |before|;
      var q := p + |Source(t)|;
      && q <= |text| && text[..|mark|] == mark && before == b[|mark|..p] && Stands(b, p, Source(t))
      && after == b[q..|text|]
    ensures WholeText(mark, before, t, after) == text
  {
    hide Readable, Source;
    var b, p := text + ['\0'], |mark| + |before|;
    var q := p + |Source(t)|;
    assert text == text[..|mark|] + (text[|mark|..p] + (text[p..q] + text[q..]));
    assert text[|mark|..p] == b[|mark|..p] && text[p..q] == b[p..q] && text[q..] == b[q..|text|];
  }

  /** cJSON_ParseWithOpts accepts a text as a whole, with the value v, if and only if the text is that of a syntax tree
      with this value: RFC 8259, but with every byte up to the space as a blank, control characters in strings, digits
      of \u escapes that are none, and any number strtod takes that begins with a digit or a minus sign. */
  lemma AcceptedExactly(text: string, v: Json)
    ensures Accepted(text, v) <==> Valid(text, v)
  {
    hide Parse, Skip, Readable, Source, ValueOf, Height, Blanks;
    if Accepted(text, v) {
      AcceptedIsValid(text, v);
    }
    if Valid(text, v) {
      var mark, before, t: Syntax, after :|
        && Readable(t) && WholeText(mark, before, t, after) == text && ValueOf(t) == v
        && (mark == MARK || mark == []) && Blanks(before) && Blanks(after);
      MarkedTextParses(mark, before, t, after);
    }
  }
}
