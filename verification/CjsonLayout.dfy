/** The layout of a formatted print, read off the text alone: where its lines end, and how far each is indented. */
module CjsonLayout {
  import opened Wrappers
  import opened CjsonKeys
  import opened CjsonString
  import opened CjsonText
  import opened CjsonRoundTrip
  import opened CjsonMinify

  function TabRun(s: string): (n: nat)
    ensures n <= |s|
  {
    if s == [] || s[0] != '\t' then 0 else 1 + TabRun(s[1..])
  }

  predicate Inside(open: string, c: char) {
    open != [] && open[|open| - 1] == c
  }

  function Closed(open: string): string
    requires open != []
  {
    open[..|open| - 1]
  }

  predicate Next(s: string, c: char) {
    |s| > 1 && s[1] == c
  }

  /** What comes behind a line end inside an object: as many tabs as brackets are open and the name of a member, or one
      tab less and the brace that closes the object. */
  predicate LineBegins(s: string, open: string) {
    var t := TabRun(s);
    && t < |s|
    && (s[t] == '\"' ==> t == |open|)
    && (s[t] == '}' ==> t + 1 == |open|)
    && (s[t] == '\"' || s[t] == '}')
  }

  /** The text s, with the brackets in `open` open: a line ends behind every brace that opens an object, behind
      every comma inside one and in front of the brace that closes it, and nowhere else; a comma inside an array is
      followed by a space and a colon by a tab; there are no other blanks outside of literals. */
  predicate Laid(s: string, open: string)
    decreases |s|
  {
    if s == [] then true
    else if s[0] == '\"' then
      var e := LiteralEnd(s, 1);
      e.Some? && Laid(s[e.value..], open)
    else if s[0] == '{' then Next(s, '\n') && Laid(s[1..], open + ['{'])
    else if s[0] == '[' then Laid(s[1..], open + ['['])
    else if s[0] == ']' then Inside(open, '[') && Laid(s[1..], Closed(open))
    else if s[0] == ':' then Next(s, '\t') && Laid(s[2..], open)
    else if s[0] == ',' then
      if Inside(open, '{') then Next(s, '\n') && Laid(s[1..], open)
      else Inside(open, '[') && Next(s, ' ') && Laid(s[2..], open)
    else if s[0] == '\n' then
      && Inside(open, '{') && LineBegins(s[1..], open)
      && var t := 1 + TabRun(s[1..]);
         if s[t] == '}' then Laid(s[t + 1..], Closed(open)) else Laid(s[t..], open)
    else s[0] != ' ' && s[0] != '\t' && s[0] != '}' && Laid(s[1..], open)
  }

  // ---------------------------------------------------------------- parts of a text

  /** A character of a number or a word. */
  predicate Ordinary(c: char) {
    c !in "\"{[]:,\n \t}"
  }

  lemma {:induction false} OrdinaryLaid(w: string, rest: string, open: string)
    requires forall i :: 0 <= i < |w| ==> Ordinary(w[i])
    ensures Laid(w + rest, open) == Laid(rest, open)
    decreases |w|
  {
    if w == [] {
      assert w + rest == rest;
    } else {
      assert (w + rest)[1..] == w[1..] + rest;
      OrdinaryLaid(w[1..], rest, open);
    }
  }

  lemma QuoteLaid(s: string, rest: string, open: string)
    ensures Laid(Quote(s) + rest, open) == Laid(rest, open)
  {
    hide Escape;
    var whole := Quote(s) + rest;
    assert whole[1..1 + |Escape(s)|] == Escape(s);
    EscapeScanned(whole, 1, s);
    assert whole[1 + |Escape(s)|] == '\"';
    assert LiteralEnd(whole, 1) == Some(|Quote(s)|);
    assert whole[|Quote(s)|..] == rest;
  }

  lemma NumberOrdinary(digits: string)
    requires NumberText(digits)
    ensures forall i :: 0 <= i < |digits| ==> Ordinary(digits[i])
  {
    hide StrtodLength;
  }

  lemma {:induction false} TabsRun(n: nat, rest: string)
    requires rest != [] && rest[0] != '\t'
    ensures TabRun(Tabs(n) + rest) == n
  {
    if n == 0 {
      assert Tabs(n) + rest == rest;
    } else {
      assert (Tabs(n) + rest)[1..] == Tabs(n - 1) + rest;
      TabsRun(n - 1, rest);
    }
  }

  lemma LaidAtEnd(s: string, open: string)
    requires s != [] && s[0] == '\n' && Inside(open, '{') && LineBegins(s[1..], open)
    ensures var t := 1 + TabRun(s[1..]);
      Laid(s, open) == if s[t] == '}' then Laid(s[t + 1..], Closed(open)) else Laid(s[t..], open)
  {
    hide LiteralEnd, TabRun;
  }

  /** A line end and a name ... */
  lemma LineLaid(tail: string, open: string)
    requires Inside(open, '{') && tail != [] && tail[0] == '\"'
    ensures Laid("\n" + (Tabs(|open|) + tail), open) == Laid(tail, open)
  {
    hide Laid;
    var s := "\n" + (Tabs(|open|) + tail);
    TabsRun(|open|, tail);
    assert s[1..] == Tabs(|open|) + tail;
    assert s[1 + |open|] == '\"' && s[1 + |open|..] == tail;
    LaidAtEnd(s, open);
  }

  lemma ColonLaid(rest: string, open: string)
    ensures Laid(":\t" + rest, open) == Laid(rest, open)
  {
    assert (":\t" + rest)[2..] == rest;
  }

  lemma NameLine(key: string, rest: string, open: string)
    requires Inside(open, '{')
    ensures Laid("\n" + (Tabs(|open|) + (Quote(key) + (":\t" + rest))), open) == Laid(rest, open)
  {
    hide Laid, Escape;
    LineLaid(Quote(key) + (":\t" + rest), open);
    QuoteLaid(key, ":\t" + rest, open);
    ColonLaid(rest, open);
  }

  /** ... or the brace at the end. */
  lemma BraceLine(rest: string, open: string)
    requires Inside(open, '{')
    ensures Laid("\n" + (Tabs(|open| - 1) + ("}" + rest)), open) == Laid(rest, Closed(open))
  {
    hide Laid;
    var n := |open| - 1;
    var s := "\n" + (Tabs(n) + ("}" + rest));
    TabsRun(n, "}" + rest);
    assert s[1..] == Tabs(n) + ("}" + rest);
    assert s[1 + n] == '}' && s[1 + n + 1..] == rest;
    LaidAtEnd(s, open);
  }

  // ---------------------------------------------------------------- values

  /** The text of a value, whatever follows it. */
  lemma {:induction false} ValueLaid(v: Json, open: string, rest: string)
    requires Printable(v)
    ensures Laid(Text(v, true, |open|) + rest, open) == Laid(rest, open)
    decreases v, 2
  {
    hide Laid, Quote, NumberText;
    match v
    case Null => OrdinaryLaid("null", rest, open);
    case False => OrdinaryLaid("false", rest, open);
    case True => OrdinaryLaid("true", rest, open);
    case Number(digits) => NumberOrdinary(digits); OrdinaryLaid(digits, rest, open);
    case Str(s) => QuoteLaid(s, rest, open);
    case Arr(items) => ArrayLaid(items, open, rest);
    case Obj(members) => ObjectLaid(members, open, rest);
  }

  lemma ArrayLaid(items: seq<Json>, open: string, rest: string)
    requires PrintableItems(items)
    ensures Laid(Text(Arr(items), true, |open|) + rest, open) == Laid(rest, open)
    decreases items, 1
  {
    hide Laid, Text, TextItems;
    ArrayText(items, true, |open|);
    var inner := TextItems(items, true, |open| + 1);
    assert "[" + (inner + "]") + rest == "[" + (inner + ("]" + rest));
    BracketOpens(inner + ("]" + rest), open);
    ItemsLaid(items, open + ['['], "]" + rest);
    BracketCloses(rest, open);
  }

  lemma BracketOpens(rest: string, open: string)
    ensures Laid("[" + rest, open) == Laid(rest, open + ['['])
  {
    assert ("[" + rest)[1..] == rest;
  }

  lemma BracketCloses(rest: string, open: string)
    ensures Laid("]" + rest, open + ['[']) == Laid(rest, open)
  {
    assert ("]" + rest)[1..] == rest && Closed(open + ['[']) == open;
  }

  lemma {:induction false} ItemsLaid(items: seq<Json>, open: string, rest: string)
    requires PrintableItems(items) && Inside(open, '[')
    ensures Laid(TextItems(items, true, |open|) + rest, open) == Laid(rest, open)
    decreases items, 0
  {
    hide Laid, Text, TextItems;
    CjsonMinify.ItemsText(items, true, |open|);
    if items == [] {
      assert "" + rest == rest;
    } else {
      var more := |items| > 1;
      var head, tail := Text(items[0], true, |open|), TextItems(items[1..], true, |open|);
      assert head + (Comma(more, true) + tail) + rest == head + (Comma(more, true) + (tail + rest));
      ValueLaid(items[0], open, Comma(more, true) + (tail + rest));
      CommaLaid(more, tail + rest, open);
      ItemsLaid(items[1..], open, rest);
    }
  }

  lemma CommaLaid(more: bool, rest: string, open: string)
    requires Inside(open, '[')
    ensures Laid(Comma(more, true) + rest, open) == Laid(rest, open)
  {
    if more {
      assert (", " + rest)[2..] == rest;
    } else {
      assert "" + rest == rest;
    }
  }

  lemma ObjectLaid(members: seq<Member>, open: string, rest: string)
    requires PrintableMembers(members)
    ensures Laid(Text(Obj(members), true, |open|) + rest, open) == Laid(rest, open)
    decreases members, 1
  {
    hide Laid, Text, TextMembers;
    ObjectText(members, true, |open|);
    var inner, close := TextMembers(members, true, |open| + 1), Tabs(|open|) + ("}" + rest);
    assert "{" + ("\n" + (inner + (Tabs(|open|) + "}"))) + rest == "{" + ("\n" + (inner + close));
    BraceOpens(inner + close, open);
    MembersLaid(members, open + ['{'], close);
    BraceLine(rest, open + ['{']);
    assert Closed(open + ['{']) == open;
  }

  lemma BraceOpens(rest: string, open: string)
    ensures Laid("{" + ("\n" + rest), open) == Laid("\n" + rest, open + ['{'])
  {
    assert ("{" + ("\n" + rest))[1..] == "\n" + rest;
  }

  /** The members, from the line end in front of the first to the line end behind the last. */
  lemma {:induction false} MembersLaid(members: seq<Member>, open: string, rest: string)
    requires PrintableMembers(members) && Inside(open, '{')
    ensures Laid("\n" + (TextMembers(members, true, |open|) + rest), open) == Laid("\n" + rest, open)
    decreases members, 0
  {
    hide Laid, Text, TextMembers, Quote;
    CjsonMinify.MembersText(members, true, |open|);
    if members == [] {
      assert "" + rest == rest;
    } else {
      var m, more := members[0], |members| > 1;
      var value, tail := Text(m.value, true, |open|), TextMembers(members[1..], true, |open|);
      var behind := LineEnd(more, true) + (tail + rest);
      assert (Tabs(|open|) + Quote(m.key) + ":\t") + (value + (LineEnd(more, true) + tail)) + rest
          == Tabs(|open|) + (Quote(m.key) + (":\t" + (value + behind)));
      NameLine(m.key, value + behind, open);
      ValueLaid(m.value, open, behind);
      MemberEnds(more, tail + rest, open);
      MembersLaid(members[1..], open, rest);
    }
  }

  lemma MemberEnds(more: bool, rest: string, open: string)
    requires Inside(open, '{')
    ensures Laid(LineEnd(more, true) + rest, open) == Laid("\n" + rest, open)
  {
    if more {
      assert LineEnd(more, true) + rest == "," + ("\n" + rest);
      assert ("," + ("\n" + rest))[1..] == "\n" + rest;
    } else {
      assert LineEnd(more, true) == "\n";
    }
  }

  /** Every formatted print has this layout. */
  lemma PrintLaid(v: Json)
    requires Printable(v)
    ensures Laid(Text(v, true, 0), [])
  {
    hide Text;
    ValueLaid(v, [], []);
    assert Text(v, true, 0) + [] == Text(v, true, 0);
  }
}
