/** cJSON_Minify keeps the meaning of every text cJSON accepts: what it leaves parses to the same value. */
module CjsonMinifyParse {
  import opened Wrappers
  import opened CjsonKeys
  import opened CjsonString
  import opened CjsonText
  import opened CjsonGrammar
  import opened CjsonRoundTrip
  import opened CjsonMinify

  function Ended(s: string): (b: string)
    ensures Terminated(b) && |b| == |s| + 1 && forall i :: 0 <= i < |s| ==> b[i] == s[i]
  {
    s + ['\0']
  }

  /** Minifying turns the text from p to n into w. */
  ghost predicate Slice(s: string, p: nat, n: nat, w: string) {
    p <= n <= |s| && Minified(s[p..]) == Onto(w, Minified(s[n..]))
  }

  lemma SliceChain(s: string, p: nat, n: nat, q: nat, w: string, x: string)
    requires Slice(s, p, n, w) && Slice(s, n, q, x)
    ensures Slice(s, p, q, w + x)
  {
    hide Minified;
    OntoTwice(w, x, Minified(s[q..]));
  }

  lemma CopiedSlice(s: string, p: nat, word: string)
    requires Stands(s, p, word) && forall i :: 0 <= i < |word| ==> Copied(word[i])
    ensures Slice(s, p, p + |word|, word)
  {
    hide Minified;
    assert s[p..] == word + s[p + |word|..];
    CopyAll(word, s[p + |word|..]);
  }

  // ---------------------------------------------------------------- whitespace

  ghost predicate White(u: string) {
    forall i :: 0 <= i < |u| ==> u[i] <= ' '
  }

  /** Of the whitespace only control characters stay. */
  lemma {:induction false} WhiteSlice(s: string, p: nat) returns (u: string)
    requires p <= |s|
    ensures var q := Skip(Ended(s), p);
      p <= q && Slice(s, p, q, u) && White(u) && (q < |s| ==> s[q] > ' ')
    decreases |s| - p
  {
    hide Minified;
    var b := Ended(s);
    u := "";
    if p == |s| {
      assert Skip(b, p) == Skip(b, p + 1) == p;
      OntoNothing(Minified(s[p..]));
    } else if s[p] <= ' ' {
      u := WhiteSlice(s, p + 1);
      MinifyStep(s[p..]);
      assert s[p..][1..] == s[p + 1..];
      if !Blank(s[p]) {
        OntoTwice([s[p]], u, Minified(s[Skip(b, p + 1)..]));
        u := [s[p]] + u;
      }
    } else {
      OntoNothing(Minified(s[p..]));
    }
  }

  lemma Opens(s: string, p: nat, q: nat, depth: nat)
    requires p <= |s| && q == Skip(Ended(s), p) && ParseValue(Ended(s), q, depth).Done?
    ensures q < |s|
  {
    Branch(Ended(s), q, depth);
  }

  /** If no number character is next, none follows directly. */
  lemma NoNumberBefore(b: string, q: nat)
    requires |b| > 0 && q < |b| && !NumberChar(b[Skip(b, q)])
    ensures !NumberChar(b[q])
  {
  }

  lemma WhiteThen(b: string, x: nat, u: string, t: string)
    requires Stands(b, x, u + t) && White(u) && t != [] && t[0] > ' '
    ensures Skip(b, x) == x + |u| && Stands(b, x + |u|, t) && b[x + |u|] == t[0]
    ensures x + |u| < |b| && (NumberChar(b[x]) ==> u == [] && NumberChar(t[0]))
  {
    hide Skip;
    StandsParts(b, x, u, t);
    StandsHead(b, x + |u|, t);
    SkipBlanks(b, x, u);
    SkipNothing(b, x + |u|);
    if u != [] {
      StandsHead(b, x, u);
    }
  }

  // ---------------------------------------------------------------- strings

  /** b and b' agree on the stretch from p to e and from p'. */
  ghost predicate Same(b: string, p: nat, e: nat, b': string, p': nat) {
    && p <= e <= |b| && p' + (e - p) <= |b'|
    && forall i :: p <= i < e ==> b[i] == b'[i - p + p']
  }

  lemma HexSame(b: string, p: nat, e: nat, b': string, p': nat, k: nat)
    requires Same(b, p, e, b', p') && p + k + 4 <= e
    ensures Hex4(b, p + k) == Hex4(b', p' + k)
  {
    hide HexValue;
    assert b[p + k] == b'[p' + k] && b[p + k + 1] == b'[p' + k + 1];
    assert b[p + k + 2] == b'[p' + k + 2] && b[p + k + 3] == b'[p' + k + 3];
  }

  lemma LiteralSame(b: string, p: nat, e: nat, b': string, p': nat)
    requires Same(b, p, e + 1, b', p') && p < e < |b| && p' + (e - p) < |b'|
    ensures Literal(b, p, e) == Literal(b', p', p' + (e - p))
  {
    hide Hex4, Utf8;
    if e - p >= 6 {
      HexSame(b, p, e + 1, b', p', 2);
      if e - (p + 6) >= 6 {
        assert b[p + 6] == b'[p' + 6] && b[p + 7] == b'[p' + 7];
        HexSame(b, p, e + 1, b', p', 8);
      }
    }
  }

  lemma {:induction false} DecodeSame(b: string, p: nat, e: nat, b': string, p': nat)
    requires Same(b, p, e + 1, b', p') && p <= e < |b|
    ensures Decode(b, p, e) == Decode(b', p', p' + (e - p))
    decreases e - p
  {
    hide Literal;
    if p < e {
      assert b[p] == b'[p'] && b[p + 1] == b'[p' + 1];
      LiteralSame(b, p, e, b', p');
      var taken := Take(b, p, e);
      if taken.Some? {
        var n := taken.value.1;
        if p + n <= e {
          DecodeSame(b, p + n, e, b', p' + n);
        }
      }
    }
  }

  lemma {:induction false} ClosingSame(b: string, p: nat, e: nat, b': string, p': nat)
    requires p <= |b| && ClosingQuote(b, p) == Some(e) && Same(b, p, e + 1, b', p')
    ensures ClosingQuote(b', p') == Some(p' + (e - p))
    decreases e - p
  {
    assert b[p] == b'[p'];
    if b[p] == '\\' {
      ClosingSame(b, p + 2, e, b', p' + 2);
    } else if b[p] != '\"' {
      ClosingSame(b, p + 1, e, b', p' + 1);
    }
  }

  /** Both passes over a literal see the same end. */
  lemma {:induction false} ClosingIsEnd(s: string, p: nat, j: nat, e: nat)
    requires p <= j <= |s| && e < |s| && ClosingQuote(Ended(s), j) == Some(e)
    ensures LiteralEnd(s[p..], j - p) == Some(e + 1 - p)
    decreases |s| - j
  {
    assert s[j] == s[p..][j - p];
    if s[j] == '\\' {
      ClosingIsEnd(s, p, j + 2, e);
    } else if s[j] != '\"' {
      ClosingIsEnd(s, p, j + 1, e);
    }
  }

  ghost predicate StringReads(w: string, t: string) {
    && w != [] && w[0] == '\"'
    && forall b: string, x: nat ::
         Terminated(b) && Stands(b, x, w) && x + |w| < |b| ==> ParseString(b, x) == Done(t, x + |w|)
  }

  lemma StringSlice(s: string, p: nat) returns (w: string)
    requires NulFree(s) && p < |s| && ParseString(Ended(s), p).Done?
    ensures var r := ParseString(Ended(s), p); Slice(s, p, r.next, w) && StringReads(w, r.value)
  {
    hide Minified, Decode, ClosingQuote, LiteralEnd, Same;
    var b := Ended(s);
    var e := ClosingQuote(b, p + 1).value;
    w := s[p..e + 1];
    ClosingIsEnd(s, p, p + 1, e);
    MinifyLiteral(s[p..], e + 1 - p);
    assert s[p..][..e + 1 - p] == w && s[p..][e + 1 - p..] == s[e + 1..];
    forall b': string, x: nat | Terminated(b') && Stands(b', x, w) && x + |w| < |b'|
      ensures ParseString(b', x) == ParseString(b, p).(next := x + |w|)
    {
      StandsIsSame(s, p, e, b', x);
      ClosingSame(b, p + 1, e, b', x + 1);
      DecodeSame(b, p + 1, e, b', x + 1);
    }
  }

  lemma CharsAt(b: string, x: nat, w: string)
    requires Stands(b, x, w)
    ensures forall i :: x <= i < x + |w| ==> b[i] == w[i - x]
  {
    forall i | x <= i < x + |w| ensures b[i] == w[i - x] {
      assert b[i] == b[x..x + |w|][i - x];
    }
  }

  lemma StandsIsSame(s: string, p: nat, e: nat, b': string, x: nat)
    requires p < e < |s| && Stands(b', x, s[p..e + 1])
    ensures Same(Ended(s), p + 1, e + 1, b', x + 1) && b'[x] == s[p]
  {
    CharsAt(b', x, s[p..e + 1]);
  }

  lemma MinifyLiteral(s: string, e: nat)
    requires s != [] && s[0] == '\"' && LiteralEnd(s, 1) == Some(e)
    ensures e <= |s| && Minified(s) == Onto(s[..e], Minified(s[e..]))
  {
  }

  // ---------------------------------------------------------------- values

  /** Wherever w stands, it is read as v. */
  ghost predicate Reads(w: string, depth: nat, v: Json) {
    && w != [] && Opening(w[0])
    && forall b: string, x: nat :: Terminated(b) && Stands(b, x, w) && x + |w| < |b| && !NumberChar(b[x + |w|]) ==>
         ParseValue(b, x, depth) == Done(v, x + |w|)
  }

  lemma WordSlice(s: string, p: nat, word: string)
    requires NulFree(s) && Starts(Ended(s), p, word) && word in {"null", "false", "true"}
    ensures Stands(s, p, word) && Slice(s, p, p + |word|, word)
  {
    hide Minified;
    WordInside(Ended(s), p, word);
    assert s[p..p + |word|] == Ended(s)[p..p + |word|];
    CopiedSlice(s, p, word);
  }

  lemma WordReads(depth: nat)
    ensures Reads("null", depth, Null) && Reads("false", depth, False) && Reads("true", depth, True)
  {
    forall b: string, x: nat | Terminated(b) && x < |b|
      ensures Starts(b, x, "null") ==> ParseValue(b, x, depth) == Done(Null, x + 4)
      ensures Starts(b, x, "false") ==> ParseValue(b, x, depth) == Done(False, x + 5)
      ensures Starts(b, x, "true") ==> ParseValue(b, x, depth) == Done(True, x + 4)
    {
      Branch(b, x, depth);
      if Starts(b, x, "null") { StartsHead(b, x, "null"); }
      if Starts(b, x, "false") { StartsHead(b, x, "false"); }
      if Starts(b, x, "true") { StartsHead(b, x, "true"); }
    }
  }

  lemma NumberReads(w: string, depth: nat)
    requires w != [] && |w| <= 63 && (w[0] == '-' || IsDigit(w[0])) && StrtodLength(w) == |w|
    requires forall i :: 0 <= i < |w| ==> NumberChar(w[i])
    ensures Reads(w, depth, Number(w))
  {
    hide StrtodLength, NumberRun, Starts;
    forall b: string, x: nat | Terminated(b) && Stands(b, x, w) && x + |w| < |b| && !NumberChar(b[x + |w|])
      ensures ParseValue(b, x, depth) == Done(Number(w), x + |w|)
    {
      RunIs(b, x, w, 63);
      StandsHead(b, x, w);
      Branch(b, x, depth);
    }
  }

  /** strtod takes the whole run. */
  lemma WholeRun(b: string, p: nat)
    requires Terminated(b) && p < |b| && ParseNumber(b, p).Done? && !NumberChar(b[ParseNumber(b, p).next])
    ensures var n := NumberRun(b, p, 63);
      && p + n < |b| && ParseNumber(b, p) == Done(Number(b[p..p + n]), p + n) && StrtodLength(b[p..p + n]) == n
      && forall i :: p <= i < p + n ==> NumberChar(b[i])
  {
    hide StrtodLength, NumberRun;
    var n := NumberRun(b, p, 63);
    var k := StrtodLength(b[p..p + n]);
    if k < n {
      assert false;
    }
  }

  lemma NumberToken(s: string, p: nat)
    requires NulFree(s) && p < |s| && ParseNumber(Ended(s), p).Done?
    requires !NumberChar(Ended(s)[ParseNumber(Ended(s), p).next])
    ensures var n := ParseNumber(Ended(s), p).next;
      && n <= |s| && n - p <= 63 && ParseNumber(Ended(s), p).value == Number(s[p..n])
      && StrtodLength(s[p..n]) == n - p && forall i :: p <= i < n ==> NumberChar(s[i])
  {
    hide StrtodLength, NumberRun, ParseNumber, Ended;
    var b := Ended(s);
    WholeRun(b, p);
    var n := NumberRun(b, p, 63);
    assert b[p..p + n] == s[p..p + n];
    assert forall i :: p <= i < p + n ==> b[i] == s[i];
  }

  lemma NumberSlice(s: string, p: nat, depth: nat) returns (w: string)
    requires NulFree(s) && p < |s| && (s[p] == '-' || IsDigit(s[p]))
    requires ParseNumber(Ended(s), p).Done? && !NumberChar(Ended(s)[ParseNumber(Ended(s), p).next])
    ensures var r := ParseNumber(Ended(s), p); Slice(s, p, r.next, w) && Reads(w, depth, r.value)
  {
    hide Minified, StrtodLength, Slice, Reads, ParseNumber, Ended;
    NumberToken(s, p);
    w := s[p..ParseNumber(Ended(s), p).next];
    assert forall i :: 0 <= i < |w| ==> w[i] == s[p + i];
    CopiedSlice(s, p, w);
    NumberReads(w, depth);
  }

  lemma StringValue(w: string, t: string, depth: nat)
    requires StringReads(w, t)
    ensures Reads(w, depth, Str(t))
  {
    hide ParseString;
    forall b: string, x: nat | Terminated(b) && Stands(b, x, w) && x + |w| < |b|
      ensures ParseValue(b, x, depth) == Done(Str(t), x + |w|)
    {
      StandsHead(b, x, w);
      Branch(b, x, depth);
    }
  }

  /** Everything but the brackets. */
  lemma {:induction false} ValueSlice(s: string, p: nat, depth: nat) returns (w: string)
    requires NulFree(s) && p < |s| && ParseValue(Ended(s), p, depth).Done?
    requires !NumberChar(Ended(s)[ParseValue(Ended(s), p, depth).next])
    ensures var r := ParseValue(Ended(s), p, depth); Slice(s, p, r.next, w) && Reads(w, depth, r.value)
    decreases |s| - p, 2
  {
    hide Slice, Reads, ParseString, ParseNumber, ParseArray, ParseObject, Starts, StringReads;
    var b := Ended(s);
    WordReads(depth);
    if Starts(b, p, "null") {
      w := "null";
      WordSlice(s, p, w);
    } else if Starts(b, p, "false") {
      w := "false";
      WordSlice(s, p, w);
    } else if Starts(b, p, "true") {
      w := "true";
      WordSlice(s, p, w);
    } else if b[p] == '\"' {
      w := StringSlice(s, p);
      StringValue(w, ParseString(b, p).value, depth);
    } else if b[p] == '-' || IsDigit(b[p]) {
      w := NumberSlice(s, p, depth);
    } else if b[p] == '[' {
      w := ArraySlice(s, p, depth);
    } else {
      w := ObjectSlice(s, p, depth);
    }
  }

  // ---------------------------------------------------------------- arrays

  /** Wherever w stands behind a bracket or comma, it is read as these elements, up to the closing bracket. */
  ghost predicate ItemsRead(w: string, depth: nat, items: seq<Json>) {
    forall b: string, p: nat, x: nat ::
      Terminated(b) && p < |b| - 1 && Stands(b, x, w) && x + |w| < |b| && Skip(b, p + 1) == Skip(b, x)
      ==> ParseItems(b, p, depth) == Done(items, x + |w|)
  }

  lemma ItemsUnfold(b: string, p: nat, depth: nat, v: Json, q: nat)
    requires Terminated(b) && p < |b| - 1 && ParseValue(b, Skip(b, p + 1), depth) == Done(v, q) && q < |b|
    ensures var s := Skip(b, q);
      && (b[s] == ']' ==> ParseItems(b, p, depth) == Done([v], s + 1))
      && (b[s] == ',' ==> s < |b| - 1)
      && (b[s] == ',' && ParseItems(b, s, depth).Done? ==>
            ParseItems(b, p, depth) == Done([v] + ParseItems(b, s, depth).value, ParseItems(b, s, depth).next))
      && (ParseItems(b, p, depth).Done? ==>
            b[s] == ']' || (b[s] == ',' && ParseItems(b, s, depth).Done?))
  {
    hide ParseValue, Skip;
  }

  /** An element with what follows it, wherever these stand. */
  lemma ElementHere(b: string, p: nat, x: nat, depth: nat, u: string, w: string, u': string, t: string, v: Json)
    requires Terminated(b) && p < |b| - 1 && Stands(b, x, u + (w + (u' + t))) && Skip(b, p + 1) == Skip(b, x)
    requires White(u) && White(u') && Reads(w, depth, v) && t != [] && t[0] > ' ' && !NumberChar(t[0])
    ensures var q := x + |u| + |w|;
      && ParseValue(b, Skip(b, p + 1), depth) == Done(v, q) && q < |b|
      && Skip(b, q) == q + |u'| && Stands(b, q + |u'|, t) && b[q + |u'|] == t[0]
  {
    hide ParseValue, Skip, Stands;
    assert (w + (u' + t))[0] == w[0];
    WhiteThen(b, x, u, w + (u' + t));
    StandsParts(b, x + |u|, w, u' + t);
    WhiteThen(b, x + |u| + |w|, u', t);
  }

  lemma {:induction false} ItemsSlice(s: string, p: nat, depth: nat) returns (w: string)
    requires NulFree(s) && p < |s| && ParseItems(Ended(s), p, depth).Done?
    ensures var r := ParseItems(Ended(s), p, depth);
      Slice(s, p + 1, r.next, w) && ItemsRead(w, depth, r.value) && Opened(w)
    decreases |s| - p, 0
  {
    hide ParseItems, ParseValue, Skip, Slice, Reads, ItemsRead, White, Ended, Opened;
    var b := Ended(s);
    ItemEnds(b, p, depth);
    var u, v, u', q, e := SliceOne(s, p, depth);
    ItemsUnfold(b, p, depth, v.1, q);
    if b[e] == ']' {
      w := u + (v.0 + (u' + "]"));
      CharSlice(s, e, ']');
      SliceFour(s, p + 1, u, v.0, u', "]", Skip(b, p + 1), q, e, e + 1);
      LastItem(u, v.0, u', depth, v.1);
      ElementOpens(u, v.0, u' + "]", depth, v.1);
    } else {
      CharSlice(s, e, ',');
      var rest := ItemsSlice(s, e, depth);
      SliceChain(s, e, e + 1, ParseItems(b, e, depth).next, ",", rest);
      w := u + (v.0 + (u' + ("," + rest)));
      SliceFour(s, p + 1, u, v.0, u', "," + rest, Skip(b, p + 1), q, e, ParseItems(b, e, depth).next);
      MoreItems(u, v.0, u', rest, depth, v.1, ParseItems(b, e, depth).value);
      ElementOpens(u, v.0, u' + ("," + rest), depth, v.1);
    }
  }

  lemma ElementOpens(u: string, w: string, t: string, depth: nat, v: Json)
    requires White(u) && Reads(w, depth, v)
    ensures Opened(u + (w + t))
  {
    hide ParseValue;
    OpenedWhite(u, w + t);
  }

  /** The element behind p, with the whitespace around it. */
  lemma SliceOne(s: string, p: nat, depth: nat)
    returns (u: string, v: (string, Json), u': string, q: nat, e: nat)
    requires NulFree(s) && p < |s| && ParseValue(Ended(s), Skip(Ended(s), p + 1), depth).Done?
    requires var r := ParseValue(Ended(s), Skip(Ended(s), p + 1), depth); !NumberChar(Ended(s)[Skip(Ended(s), r.next)])
    ensures var start := Skip(Ended(s), p + 1);
      && ParseValue(Ended(s), start, depth) == Done(v.1, q) && p < q <= |s| && e == Skip(Ended(s), q) && q <= e <= |s|
      && White(u) && White(u') && Reads(v.0, depth, v.1)
      && Slice(s, p + 1, start, u) && Slice(s, start, q, v.0) && Slice(s, q, e, u')
    decreases |s| - p, 0, 0
  {
    hide ParseValue, Skip, Slice, Reads, White, Ended;
    var b := Ended(s);
    u := WhiteSlice(s, p + 1);
    var start := Skip(b, p + 1);
    Opens(s, p + 1, start, depth);
    var r := ParseValue(b, start, depth);
    q := r.next;
    NoNumberBefore(b, q);
    var w := ValueSlice(s, start, depth);
    v := (w, r.value);
    u' := WhiteSlice(s, q);
    e := Skip(b, q);
  }

  lemma CharSlice(s: string, e: nat, c: char)
    requires e <= |s| && Ended(s)[e] == c && c != '\0' && Copied(c)
    ensures e < |s| && Slice(s, e, e + 1, [c])
  {
    hide Minified;
    assert s[e..e + 1] == [c];
    CopiedSlice(s, e, [c]);
  }

  lemma SliceFour(s: string, p: nat, u: string, w: string, u': string, t: string, p1: nat, p2: nat, p3: nat, p4: nat)
    requires Slice(s, p, p1, u) && Slice(s, p1, p2, w) && Slice(s, p2, p3, u') && Slice(s, p3, p4, t)
    ensures Slice(s, p, p4, u + (w + (u' + t)))
  {
    hide Slice;
    SliceChain(s, p2, p3, p4, u', t);
    SliceChain(s, p1, p2, p4, w, u' + t);
    SliceChain(s, p, p1, p4, u, w + (u' + t));
  }

  lemma LastItem(u: string, w: string, u': string, depth: nat, v: Json)
    requires White(u) && White(u') && Reads(w, depth, v)
    ensures ItemsRead(u + (w + (u' + "]")), depth, [v])
  {
    hide ParseItems, ParseValue, Skip, Stands, Reads, White;
    var all := u + (w + (u' + "]"));
    forall b: string, p: nat, x: nat
      | Terminated(b) && p < |b| - 1 && Stands(b, x, all) && x + |all| < |b| && Skip(b, p + 1) == Skip(b, x)
      ensures ParseItems(b, p, depth) == Done([v], x + |all|)
    {
      ElementHere(b, p, x, depth, u, w, u', "]", v);
      ItemsUnfold(b, p, depth, v, x + |u| + |w|);
    }
  }

  lemma MoreItems(u: string, w: string, u': string, rest: string, depth: nat, v: Json, items: seq<Json>)
    requires White(u) && White(u') && Reads(w, depth, v) && ItemsRead(rest, depth, items)
    ensures ItemsRead(u + (w + (u' + ("," + rest))), depth, [v] + items)
  {
    hide ParseItems, ParseValue, Skip, Stands, Reads, White;
    var all := u + (w + (u' + ("," + rest)));
    forall b: string, p: nat, x: nat
      | Terminated(b) && p < |b| - 1 && Stands(b, x, all) && x + |all| < |b| && Skip(b, p + 1) == Skip(b, x)
      ensures ParseItems(b, p, depth) == Done([v] + items, x + |all|)
    {
      ElementHere(b, p, x, depth, u, w, u', "," + rest, v);
      var e := x + |u| + |w| + |u'|;
      StandsParts(b, e, ",", rest);
      ItemsUnfold(b, p, depth, v, x + |u| + |w|);
    }
  }

  lemma ArraySlice(s: string, p: nat, depth: nat) returns (w: string)
    requires NulFree(s) && p < |s| && s[p] == '[' && ParseArray(Ended(s), p, depth).Done?
    ensures var r := ParseArray(Ended(s), p, depth); Slice(s, p, r.next, w) && Reads(w, depth, Arr(r.value))
    decreases |s| - p, 1
  {
    hide ParseItems, ParseValue, Skip, Slice, Reads, ItemsRead, White, Ended;
    var b := Ended(s);
    EndedAt(s, p);
    CharSlice(s, p, '[');
    var u := WhiteSlice(s, p + 1);
    var q := Skip(b, p + 1);
    SliceChain(s, p, p + 1, q, "[", u);
    if b[q] == ']' {
      CharSlice(s, q, ']');
      SliceChain(s, p, q, q + 1, "[" + u, "]");
      w := "[" + u + "]";
      NoItems(u, depth);
    } else {
      var rest := ItemsSlice(s, q - 1, depth + 1);
      var n := ParseItems(b, q - 1, depth + 1).next;
      SliceChain(s, p, q, n, "[" + u, rest);
      w := "[" + u + rest;
      SomeItems(u, rest, depth, ParseItems(b, q - 1, depth + 1).value);
    }
  }

  lemma EndedAt(s: string, p: nat)
    requires p < |s|
    ensures Ended(s)[p] == s[p]
  {
  }

  lemma ArrayBranch(b: string, x: nat, depth: nat)
    requires Terminated(b) && x < |b| && b[x] == '[' && depth < NESTING_LIMIT
    ensures var q := Skip(b, x + 1);
      && (b[q] == ']' ==> ParseValue(b, x, depth) == Done(Arr([]), q + 1))
      && (b[q] != ']' && ParseItems(b, q - 1, depth + 1).Done? ==>
            ParseValue(b, x, depth) ==
            Done(Arr(ParseItems(b, q - 1, depth + 1).value), ParseItems(b, q - 1, depth + 1).next))
  {
    hide ParseItems, Starts, Skip, ParseObject, ParseString, ParseNumber;
    Branch(b, x, depth);
  }

  lemma NoItems(u: string, depth: nat)
    requires White(u) && depth < NESTING_LIMIT
    ensures Reads("[" + u + "]", depth, Arr([]))
  {
    hide ParseValue, ParseItems, Skip, Stands, White;
    forall b: string, x: nat | Terminated(b) && Stands(b, x, "[" + u + "]") && x + |"[" + u + "]"| < |b|
      ensures ParseValue(b, x, depth) == Done(Arr([]), x + |"[" + u + "]"|)
    {
      assert "[" + u + "]" == "[" + (u + "]");
      StandsParts(b, x, "[", u + "]");
      StandsChar(b, x, '[');
      WhiteThen(b, x + 1, u, "]");
      ArrayBranch(b, x, depth);
    }
  }

  /** Wherever it stands, behind whitespace comes something, and no closing bracket. */
  ghost predicate Opened(w: string) {
    w != [] && if w[0] <= ' ' then Opened(w[1..]) else w[0] != ']' && w[0] != '}'
  }

  lemma {:induction false} OpenedWhite(u: string, t: string)
    requires White(u) && t != [] && t[0] > ' ' && t[0] != ']' && t[0] != '}'
    ensures Opened(u + t)
    decreases |u|
  {
    if u == [] {
      assert u + t == t;
    } else {
      assert (u + t)[1..] == u[1..] + t;
      OpenedWhite(u[1..], t);
    }
  }

  lemma {:induction false} OpenedHere(b: string, x: nat, w: string)
    requires |b| > 0 && Stands(b, x, w) && Opened(w)
    ensures var q := Skip(b, x); x <= q && b[q] > ' ' && b[q] != ']' && b[q] != '}' && Skip(b, q) == q
    decreases |w|
  {
    StandsHead(b, x, w);
    if w[0] <= ' ' {
      assert w == [w[0]] + w[1..];
      StandsParts(b, x, [w[0]], w[1..]);
      OpenedHere(b, x + 1, w[1..]);
    }
  }

  /** An opening bracket, whitespace and elements. */
  lemma SomeItems(u: string, rest: string, depth: nat, items: seq<Json>)
    requires White(u) && depth < NESTING_LIMIT && ItemsRead(rest, depth + 1, items) && Opened(rest)
    ensures Reads("[" + u + rest, depth, Arr(items))
  {
    hide ParseValue, ParseItems, Skip, Stands, White, Opened;
    var all := "[" + u + rest;
    forall b: string, x: nat | Terminated(b) && Stands(b, x, all) && x + |all| < |b|
      ensures ParseValue(b, x, depth) == Done(Arr(items), x + |all|)
    {
      assert all == "[" + (u + rest);
      StandsParts(b, x, "[", u + rest);
      StandsChar(b, x, '[');
      StandsParts(b, x + 1, u, rest);
      WhitesSkipped(b, x + 1, u);
      OpenedHere(b, x + 1 + |u|, rest);
      ArrayBranch(b, x, depth);
      var q := Skip(b, x + 1);
      assert Skip(b, q - 1 + 1) == Skip(b, x + 1 + |u|);
    }
  }

  lemma WhitesSkipped(b: string, x: nat, u: string)
    requires |b| > 0 && Stands(b, x, u) && White(u)
    ensures Skip(b, x) == Skip(b, x + |u|)
  {
    SkipBlanks(b, x, u);
  }

  // ---------------------------------------------------------------- objects

  ghost predicate MembersRead(w: string, depth: nat, members: seq<Member>) {
    forall b: string, p: nat, x: nat ::
      Terminated(b) && p < |b| - 1 && Stands(b, x, w) && x + |w| < |b| && Skip(b, p + 1) == Skip(b, x)
      ==> ParseMembers(b, p, depth) == Done(members, x + |w|)
  }

  lemma FirstMember(b: string, p: nat, depth: nat)
    requires Terminated(b) && p < |b| - 1 && ParseMembers(b, p, depth).Done?
    ensures ParseString(b, Skip(b, p + 1)).Done?
    ensures var c := Skip(b, ParseString(b, Skip(b, p + 1)).next);
      b[c] == ':' && c < |b| - 1 && ParseValue(b, Skip(b, c + 1), depth).Done?
  {
    hide ParseValue, ParseString, Skip;
  }

  /** The parts of a member. */
  ghost predicate MemberAt(b: string, p: nat, depth: nat, key: string, c: nat, v: Json, q: nat)
    requires Terminated(b) && p < |b| - 1
  {
    && ParseString(b, Skip(b, p + 1)).Done? && key == ParseString(b, Skip(b, p + 1)).value
    && c == Skip(b, ParseString(b, Skip(b, p + 1)).next) && b[c] == ':'
    && ParseValue(b, Skip(b, c + 1), depth) == Done(v, q) && q < |b|
  }

  lemma MembersUnfold(b: string, p: nat, depth: nat, key: string, c: nat, v: Json, q: nat)
    requires Terminated(b) && p < |b| - 1 && MemberAt(b, p, depth, key, c, v, q)
    ensures var s, m := Skip(b, q), Member(key, v);
      && (b[s] == '}' ==> ParseMembers(b, p, depth) == Done([m], s + 1))
      && (b[s] == ',' ==> s < |b| - 1)
      && (b[s] == ',' && ParseMembers(b, s, depth).Done? ==>
            ParseMembers(b, p, depth) == Done([m] + ParseMembers(b, s, depth).value, ParseMembers(b, s, depth).next))
  {
    hide ParseValue, ParseString, Skip;
  }

  lemma MembersGoOn(b: string, p: nat, depth: nat, key: string, c: nat, v: Json, q: nat)
    requires Terminated(b) && p < |b| - 1 && MemberAt(b, p, depth, key, c, v, q)
    requires ParseMembers(b, p, depth).Done?
    ensures var s := Skip(b, q); b[s] == '}' || (b[s] == ',' && s < |b| - 1 && ParseMembers(b, s, depth).Done?)
  {
    hide ParseValue, ParseString, Skip;
  }

  function Named(name: (string, string, string), t: string): string {
    name.0 + (name.1 + (name.2 + (":" + t)))
  }

  /** A name and its colon, wherever these stand. */
  lemma NameHere(b: string, p: nat, x: nat, name: (string, string, string), t: string, key: string)
    requires Terminated(b) && p < |b| - 1 && Stands(b, x, Named(name, t)) && Skip(b, p + 1) == Skip(b, x)
    requires White(name.0) && White(name.2) && StringReads(name.1, key)
    ensures ParseString(b, Skip(b, p + 1)).Done? && ParseString(b, Skip(b, p + 1)).value == key
    ensures var c := Skip(b, ParseString(b, Skip(b, p + 1)).next);
      b[c] == ':' && c + 1 + |t| == x + |Named(name, t)| && Stands(b, c + 1, t)
  {
    hide ParseString, Skip, Stands;
    var (u, k, u') := name;
    assert (k + (u' + (":" + t)))[0] == k[0];
    WhiteThen(b, x, u, k + (u' + (":" + t)));
    StandsParts(b, x + |u|, k, u' + (":" + t));
    WhiteThen(b, x + |u| + |k|, u', ":" + t);
    StandsParts(b, x + |u| + |k| + |u'|, ":", t);
  }

  lemma {:induction false} MembersSlice(s: string, p: nat, depth: nat) returns (w: string)
    requires NulFree(s) && p < |s| && ParseMembers(Ended(s), p, depth).Done?
    ensures var r := ParseMembers(Ended(s), p, depth);
      Slice(s, p + 1, r.next, w) && MembersRead(w, depth, r.value) && Opened(w)
    decreases |s| - p, 0
  {
    hide ParseMembers, ParseValue, ParseString, Skip, Slice, Reads, MembersRead, White, Ended, StringReads, Opened;
    var b := Ended(s);
    FirstMember(b, p, depth);
    var u1, k, u2, c := SliceName(s, p, depth);
    var key := ParseString(b, Skip(b, p + 1)).value;
    MemberEnds(b, p, depth, c);
    var u, v, u', q, e := SliceOne(s, c, depth);
    MembersUnfold(b, p, depth, key, c, v.1, q);
    MembersGoOn(b, p, depth, key, c, v.1, q);
    var name := (u1, k, u2);
    if b[e] == '}' {
      CharSlice(s, e, '}');
      SliceFour(s, c + 1, u, v.0, u', "}", Skip(b, c + 1), q, e, e + 1);
      w := Named(name, u + (v.0 + (u' + "}")));
      SliceNamed(s, p + 1, c, e + 1, name, u + (v.0 + (u' + "}")));
      LastMember(name, u, v.0, u', depth, key, v.1);
      NamedOpens(name, key, u + (v.0 + (u' + "}")));
    } else {
      CharSlice(s, e, ',');
      var rest := MembersSlice(s, e, depth);
      var n := ParseMembers(b, e, depth).next;
      SliceChain(s, e, e + 1, n, ",", rest);
      SliceFour(s, c + 1, u, v.0, u', "," + rest, Skip(b, c + 1), q, e, n);
      w := Named(name, u + (v.0 + (u' + ("," + rest))));
      SliceNamed(s, p + 1, c, n, name, u + (v.0 + (u' + ("," + rest))));
      MoreMembers(name, u, v.0, u', rest, depth, key, v.1, ParseMembers(b, e, depth).value);
      NamedOpens(name, key, u + (v.0 + (u' + ("," + rest))));
    }
  }

  /** What follows a member's value is no part of a number. */
  lemma MemberEnds(b: string, p: nat, depth: nat, c: nat)
    requires Terminated(b) && p < |b| - 1 && ParseMembers(b, p, depth).Done? && ParseString(b, Skip(b, p + 1)).Done?
    requires c == Skip(b, ParseString(b, Skip(b, p + 1)).next) && b[c] == ':'
    ensures var r := ParseValue(b, Skip(b, c + 1), depth); r.Done? && !NumberChar(b[Skip(b, r.next)])
  {
    hide ParseValue, ParseString, Skip;
  }

  lemma ItemEnds(b: string, p: nat, depth: nat)
    requires Terminated(b) && p < |b| - 1 && ParseItems(b, p, depth).Done?
    ensures var r := ParseValue(b, Skip(b, p + 1), depth); r.Done? && !NumberChar(b[Skip(b, r.next)])
  {
    hide ParseValue, Skip;
  }

  lemma SliceNamed(s: string, p: nat, c: nat, n: nat, name: (string, string, string), t: string)
    requires c < |s| && Slice(s, p, c, name.0 + (name.1 + name.2)) && Ended(s)[c] == ':' && Slice(s, c + 1, n, t)
    ensures Slice(s, p, n, Named(name, t))
  {
    hide Slice;
    CharSlice(s, c, ':');
    SliceChain(s, c, c + 1, n, ":", t);
    SliceChain(s, p, c, n, name.0 + (name.1 + name.2), ":" + t);
    assert name.0 + (name.1 + name.2) + (":" + t) == Named(name, t);
  }

  /** The name behind p, with the whitespace around it, up to the colon. */
  lemma SliceName(s: string, p: nat, depth: nat) returns (u: string, k: string, u': string, c: nat)
    requires NulFree(s) && p < |s| && ParseString(Ended(s), Skip(Ended(s), p + 1)).Done?
    requires Ended(s)[Skip(Ended(s), ParseString(Ended(s), Skip(Ended(s), p + 1)).next)] == ':'
    ensures var r := ParseString(Ended(s), Skip(Ended(s), p + 1));
      && c == Skip(Ended(s), r.next) && p < c < |s| && White(u) && White(u') && StringReads(k, r.value)
      && Slice(s, p + 1, c, u + (k + u'))
  {
    hide ParseString, Skip, Slice, White, StringReads;
    var b := Ended(s);
    u := WhiteSlice(s, p + 1);
    var q := Skip(b, p + 1);
    QuoteInside(s, q);
    k := StringSlice(s, q);
    var n := ParseString(b, q).next;
    u' := WhiteSlice(s, n);
    c := Skip(b, n);
    SliceChain(s, q, n, c, k, u');
    SliceChain(s, p + 1, q, c, u, k + u');
  }

  lemma QuoteInside(s: string, q: nat)
    requires q <= |s| && ParseString(Ended(s), q).Done?
    ensures q < |s| && ParseString(Ended(s), q).next <= |s|
  {
  }

  lemma NamedOpens(name: (string, string, string), key: string, t: string)
    requires White(name.0) && StringReads(name.1, key)
    ensures Opened(Named(name, t))
  {
    hide ParseString;
    OpenedWhite(name.0, name.1 + (name.2 + (":" + t)));
  }

  lemma LastMember(name: (string, string, string), u: string, w: string, u': string, depth: nat, key: string, v: Json)
    requires White(name.0) && White(name.2) && StringReads(name.1, key)
    requires White(u) && White(u') && Reads(w, depth, v)
    ensures MembersRead(Named(name, u + (w + (u' + "}"))), depth, [Member(key, v)])
  {
    hide ParseMembers, ParseValue, ParseString, Skip, Stands, Reads, White, StringReads, Named;
    var t := u + (w + (u' + "}"));
    var all := Named(name, t);
    forall b: string, p: nat, x: nat
      | Terminated(b) && p < |b| - 1 && Stands(b, x, all) && x + |all| < |b| && Skip(b, p + 1) == Skip(b, x)
      ensures ParseMembers(b, p, depth) == Done([Member(key, v)], x + |all|)
    {
      NameHere(b, p, x, name, t, key);
      var c := Skip(b, ParseString(b, Skip(b, p + 1)).next);
      ElementHere(b, c, c + 1, depth, u, w, u', "}", v);
      MembersUnfold(b, p, depth, key, c, v, c + 1 + |u| + |w|);
    }
  }

  lemma MembersHere(b: string, p: nat, x: nat, rest: string, depth: nat, members: seq<Member>)
    requires MembersRead(rest, depth, members) && Terminated(b) && p < |b| - 1
    requires Stands(b, x, rest) && x + |rest| < |b| && Skip(b, p + 1) == Skip(b, x)
    ensures ParseMembers(b, p, depth) == Done(members, x + |rest|)
  {
    hide ParseMembers, Stands, Skip;
  }

  /** One member in front of others, at one place. */
  lemma MoreMembersHere(b: string, p: nat, x: nat, name: (string, string, string), u: string, w: string, u': string,
                        rest: string, depth: nat, key: string, v: Json, members: seq<Member>)
    requires White(name.0) && White(name.2) && StringReads(name.1, key)
    requires White(u) && White(u') && Reads(w, depth, v) && MembersRead(rest, depth, members)
    requires Terminated(b) && p < |b| - 1
    requires var all := Named(name, u + (w + (u' + ("," + rest)))); Stands(b, x, all) && x + |all| < |b|
    requires Skip(b, p + 1) == Skip(b, x)
    ensures ParseMembers(b, p, depth)
         == Done([Member(key, v)] + members, x + |Named(name, u + (w + (u' + ("," + rest))))|)
  {
    hide ParseMembers, ParseValue, ParseString, Skip, Stands, Reads, White, StringReads, Named, MembersRead;
    var t := u + (w + (u' + ("," + rest)));
    NameHere(b, p, x, name, t, key);
    var c := Skip(b, ParseString(b, Skip(b, p + 1)).next);
    ElementHere(b, c, c + 1, depth, u, w, u', "," + rest, v);
    var q := c + 1 + |u| + |w|;
    var e := q + |u'|;
    assert |t| == |u| + |w| + |u'| + 1 + |rest|;
    StandsParts(b, e, ",", rest);
    MembersHere(b, e, e + 1, rest, depth, members);
    MembersUnfold(b, p, depth, key, c, v, q);
  }

  lemma MoreMembers(name: (string, string, string), u: string, w: string, u': string, rest: string, depth: nat,
                    key: string, v: Json, members: seq<Member>)
    requires White(name.0) && White(name.2) && StringReads(name.1, key)
    requires White(u) && White(u') && Reads(w, depth, v) && MembersRead(rest, depth, members)
    ensures MembersRead(Named(name, u + (w + (u' + ("," + rest)))), depth, [Member(key, v)] + members)
  {
    hide ParseMembers, Skip, Stands, Reads, White, StringReads, Named;
    var all := Named(name, u + (w + (u' + ("," + rest))));
    forall b: string, p: nat, x: nat
      | Terminated(b) && p < |b| - 1 && Stands(b, x, all) && x + |all| < |b| && Skip(b, p + 1) == Skip(b, x)
      ensures ParseMembers(b, p, depth) == Done([Member(key, v)] + members, x + |all|)
    {
      MoreMembersHere(b, p, x, name, u, w, u', rest, depth, key, v, members);
    }
  }

  lemma ObjectSlice(s: string, p: nat, depth: nat) returns (w: string)
    requires NulFree(s) && p < |s| && s[p] == '{' && ParseObject(Ended(s), p, depth).Done?
    ensures var r := ParseObject(Ended(s), p, depth); Slice(s, p, r.next, w) && Reads(w, depth, Obj(r.value))
    decreases |s| - p, 1
  {
    hide ParseMembers, ParseValue, Skip, Slice, Reads, MembersRead, White, Ended, Opened;
    var b := Ended(s);
    EndedAt(s, p);
    CharSlice(s, p, '{');
    var u := WhiteSlice(s, p + 1);
    var q := Skip(b, p + 1);
    SliceChain(s, p, p + 1, q, "{", u);
    if b[q] == '}' {
      CharSlice(s, q, '}');
      SliceChain(s, p, q, q + 1, "{" + u, "}");
      w := "{" + u + "}";
      NoMembers(u, depth);
    } else {
      var rest := MembersSlice(s, q - 1, depth + 1);
      var n := ParseMembers(b, q - 1, depth + 1).next;
      SliceChain(s, p, q, n, "{" + u, rest);
      w := "{" + u + rest;
      SomeMembers(u, rest, depth, ParseMembers(b, q - 1, depth + 1).value);
    }
  }

  lemma NoMembers(u: string, depth: nat)
    requires White(u) && depth < NESTING_LIMIT
    ensures Reads("{" + u + "}", depth, Obj([]))
  {
    hide ParseValue, ParseMembers, Skip, Stands, White;
    forall b: string, x: nat | Terminated(b) && Stands(b, x, "{" + u + "}") && x + |"{" + u + "}"| < |b|
      ensures ParseValue(b, x, depth) == Done(Obj([]), x + |"{" + u + "}"|)
    {
      assert "{" + u + "}" == "{" + (u + "}");
      StandsParts(b, x, "{", u + "}");
      StandsChar(b, x, '{');
      WhiteThen(b, x + 1, u, "}");
      BraceBranch(b, x, depth);
    }
  }

  lemma SomeMembers(u: string, rest: string, depth: nat, members: seq<Member>)
    requires White(u) && depth < NESTING_LIMIT && MembersRead(rest, depth + 1, members) && Opened(rest)
    ensures Reads("{" + u + rest, depth, Obj(members))
  {
    hide ParseValue, ParseMembers, Skip, Stands, White, Opened;
    var all := "{" + u + rest;
    forall b: string, x: nat | Terminated(b) && Stands(b, x, all) && x + |all| < |b|
      ensures ParseValue(b, x, depth) == Done(Obj(members), x + |all|)
    {
      assert all == "{" + (u + rest);
      StandsParts(b, x, "{", u + rest);
      StandsChar(b, x, '{');
      StandsParts(b, x + 1, u, rest);
      WhitesSkipped(b, x + 1, u);
      OpenedHere(b, x + 1 + |u|, rest);
      BraceBranch(b, x, depth);
      var q := Skip(b, x + 1);
      assert Skip(b, q - 1 + 1) == Skip(b, x + 1 + |u|);
    }
  }

  // ---------------------------------------------------------------- whole texts

  /** What cJSON_ParseWithOpts takes as a whole, with nothing but whitespace behind the value. */
  ghost predicate Accepted(text: string) {
    Parse(text).Done? && Skip(Ended(text), Parse(text).next) == |text|
  }

  lemma {:induction false} MinifiedNulFree(s: string)
    requires NulFree(s) && Minified(s).Some?
    ensures NulFree(Minified(s).value) && |Minified(s).value| <= |s|
    decreases |s|
  {
    hide LineEnding, CommentEnd, LiteralEnd;
    if s != [] {
      MinifyStep(s);
      if Blank(s[0]) {
        MinifiedNulFree(s[1..]);
      } else if s[0] == '/' && |s| > 1 && s[1] == '/' {
        MinifiedNulFree(s[LineEnding(s, 2)..]);
      } else if s[0] == '/' && |s| > 1 && s[1] == '*' {
        MinifiedNulFree(s[CommentEnd(s, 1).value..]);
      } else if s[0] == '\"' {
        MinifiedNulFree(s[LiteralEnd(s, 1).value..]);
      } else {
        MinifiedNulFree(s[1..]);
      }
    }
  }

  /** The byte order mark is copied. */
  lemma BomSlice(s: string)
    ensures var n := SkipBom(Ended(s)); n <= |s| && Slice(s, 0, n, s[..n])
  {
    hide Minified;
    var n := SkipBom(Ended(s));
    if n == 3 {
      assert s[..3] == Ended(s)[..3];
      assert s[0] == '\U{ef}' && s[1] == '\U{bb}' && s[2] == '\U{bf}';
      assert s[0..3] == s[..3];
      CopiedSlice(s, 0, s[..3]);
    } else {
      OntoNothing(Minified(s));
      assert s[0..] == s && s[..0] == [];
    }
  }

  /** For every text that is accepted as a whole, minifying never reads behind its end, and what it leaves is
      accepted as a whole and has the same value. */
  lemma MinifyKeepsMeaning(text: string)
    requires NulFree(text) && Accepted(text)
    ensures Minified(text).Some?
    ensures var m := Minified(text).value;
      NulFree(m) && |m| <= |text| && Accepted(m) && Parse(m).value == Parse(text).value
  {
    hide Minified, ParseValue, Skip, Slice, Reads, White;
    var b := Ended(text);
    BomSlice(text);
    var n := SkipBom(b);
    var u := WhiteSlice(text, n);
    var start := Skip(b, n);
    Opens(text, n, start, 0);
    var r := ParseValue(b, start, 0);
    NoNumberBefore(b, r.next);
    var w := ValueSlice(text, start, 0);
    var u' := WhiteSlice(text, r.next);
    SliceChain(text, start, r.next, |text|, w, u');
    SliceChain(text, n, start, |text|, u, w + u');
    SliceChain(text, 0, n, |text|, text[..n], u + (w + u'));
    var m := text[..n] + (u + (w + u'));
    WholeSlice(text, m);
    MinifiedNulFree(text);
    BomKept(text, n, u, w, u', r.value);
    WholeReads(text[..n], u, w, u', r.value);
  }

  lemma WholeSlice(s: string, m: string)
    requires Slice(s, 0, |s|, m)
    ensures Minified(s) == Some(m)
  {
    assert s[0..] == s && s[|s|..] == [];
    assert m + [] == m;
  }

  lemma BomKept(text: string, n: nat, u: string, w: string, u': string, v: Json)
    requires n == SkipBom(Ended(text)) && n <= |text| && White(u) && Reads(w, 0, v)
    ensures SkipBom(Ended(text[..n] + (u + (w + u')))) == n
  {
    hide ParseValue;
    var m := text[..n] + (u + (w + u'));
    if n == 0 {
      assert m == u + (w + u');
      assert m[0] != '\U{ef}';
      assert Ended(m)[0] == m[0];
      assert |Ended(m)| > 4 ==> Ended(m)[..3][0] == m[0];
    } else {
      assert Ended(m)[..3] == Ended(text)[..3];
    }
  }

  lemma WholeReads(bom: string, u: string, w: string, u': string, v: Json)
    requires White(u) && White(u') && Reads(w, 0, v) && SkipBom(Ended(bom + (u + (w + u')))) == |bom|
    ensures Accepted(bom + (u + (w + u'))) && Parse(bom + (u + (w + u'))).value == v
  {
    hide ParseValue, Skip, Stands, White, SkipBom;
    var t := bom + (u + (w + u'));
    var b := Ended(t);
    StandsWhole(bom, u + (w + (u' + ['\0'])), b);
    ReadHere(b, |bom|, u, w, u', v);
  }

  lemma ReadHere(b: string, p: nat, u: string, w: string, u': string, v: Json)
    requires Terminated(b) && Stands(b, p, u + (w + (u' + ['\0']))) && p + |u + (w + (u' + ['\0']))| == |b|
    requires White(u) && White(u') && Reads(w, 0, v)
    ensures var q := p + |u| + |w|; ParseValue(b, Skip(b, p), 0) == Done(v, q) && Skip(b, q) == |b| - 1
  {
    hide ParseValue, Skip, Stands, White;
    assert (w + (u' + ['\0']))[0] == w[0];
    WhiteThen(b, p, u, w + (u' + ['\0']));
    var x := p + |u|;
    StandsParts(b, x, w, u' + ['\0']);
    StandsParts(b, x + |w|, u', ['\0']);
    NoNumberInWhite(b, x + |w|, u');
    WhitesSkipped(b, x + |w|, u');
    SkipEnd(b);
  }

  lemma StandsWhole(s: string, t: string, b: string)
    requires b == s + t
    ensures Stands(b, |s|, t)
  {
    assert b[|s|..|s| + |t|] == t;
  }

  lemma NoNumberInWhite(b: string, x: nat, u: string)
    requires Terminated(b) && Stands(b, x, u) && White(u) && x + |u| == |b| - 1
    ensures !NumberChar(b[x])
  {
    if u != [] {
      StandsHead(b, x, u);
    }
  }

  lemma SkipEnd(b: string)
    requires Terminated(b)
    ensures Skip(b, |b| - 1) == |b| - 1
  {
    assert Skip(b, |b| - 1) == Skip(b, |b|);
  }
}
