/** cJSON_Minify: the formatted print of a value, minified in place, is its unformatted print. */
module CjsonMinify {
  import opened Wrappers
  import opened CjsonKeys
  import opened CjsonString
  import opened CjsonText
  import opened CjsonGrammar
  import opened CjsonRoundTrip

  // ---------------------------------------------------------------- what minifying means

  predicate Blank(c: char) {
    c == ' ' || c == '\t' || c == '\r' || c == '\n'
  }

  /** The line end from p on, or the end of the text. */
  function LineEnding(s: string, p: nat): (e: nat)
    requires p <= |s|
    ensures p <= e <= |s|
    decreases |s| - p
  {
    if p == |s| || s[p] == '\n' then p else LineEnding(s, p + 1)
  }

  /** Behind the end of a comment; the comment may not reach the end of the text. */
  function CommentEnd(s: string, p: nat): (e: Option<nat>)
    requires p <= |s|
    ensures e.Some? ==> p + 2 <= e.value <= |s|
    decreases |s| - p
  {
    if p + 1 >= |s| then None
    else if s[p] == '*' && s[p + 1] == '/' then Some(p + 2)
    else CommentEnd(s, p + 1)
  }

  /** Behind the closing quote of a literal; the literal may not reach the end of the text. */
  function LiteralEnd(s: string, p: nat): (e: Option<nat>)
    ensures e.Some? ==> p < e.value <= |s|
    decreases |s| - p
  {
    if p >= |s| then None
    else if s[p] == '\"' then Some(p + 1)
    else if s[p] != '\\' then LiteralEnd(s, p + 1)
    else if p + 1 >= |s| then None
    else LiteralEnd(s, p + 2)
  }

  /** The minified text; None where the program would read on behind the end of the text. */
  function Minified(s: string): Option<string>
    decreases |s|
  {
    if s == [] then Some([])
    else if Blank(s[0]) then Minified(s[1..])
    else if s[0] == '/' && |s| > 1 && s[1] == '/' then Minified(s[LineEnding(s, 2)..])
    else if s[0] == '/' && |s| > 1 && s[1] == '*' then
      match CommentEnd(s, 1)
      case None => None
      case Some(e) => Minified(s[e..])
    else if s[0] == '\"' then
      match LiteralEnd(s, 1)
      case None => None
      case Some(e) => Onto(s[..e], Minified(s[e..]))
    else Onto([s[0]], Minified(s[1..]))
  }

  // ---------------------------------------------------------------- minifying printed text

  predicate Copied(c: char) {
    !Blank(c) && c != '/' && c != '\"'
  }

  lemma {:induction false} CopyAll(s: string, t: string)
    requires forall i :: 0 <= i < |s| ==> Copied(s[i])
    ensures Minified(s + t) == Onto(s, Minified(t))
    decreases |s|
  {
    if s == [] {
      assert s + t == t;
      OntoNothing(Minified(t));
    } else {
      assert (s + t)[1..] == s[1..] + t;
      CopyAll(s[1..], t);
      OntoTwice([s[0]], s[1..], Minified(t));
      assert [s[0]] + s[1..] == s;
    }
  }

  lemma {:induction false} SkipAll(s: string, t: string)
    requires forall i :: 0 <= i < |s| ==> Blank(s[i])
    ensures Minified(s + t) == Minified(t)
    decreases |s|
  {
    if s == [] {
      assert s + t == t;
    } else {
      assert (s + t)[1..] == s[1..] + t;
      SkipAll(s[1..], t);
    }
  }

  lemma {:induction false} EscapeScanned(w: string, p: nat, s: string)
    requires Stands(w, p, Escape(s))
    ensures LiteralEnd(w, p) == LiteralEnd(w, p + |Escape(s)|)
    decreases |s|
  {
    hide LiteralEnd, EscapeChar, Stands;
    if s != [] {
      var c := EscapeChar(s[0]);
      StandsParts(w, p, c, Escape(s[1..]));
      CharScanned(w, p, s[0]);
      EscapeScanned(w, p + |c|, s[1..]);
    }
  }

  /** The shape of an escaped byte. */
  lemma EscapeForm(c: char)
    ensures var e := EscapeChar(c);
      || (|e| == 1 && e[0] != '\"' && e[0] != '\\')
      || (|e| == 2 && e[0] == '\\')
      || (|e| == 6 && e[0] == '\\' && forall i :: 2 <= i < 6 ==> e[i] != '\"' && e[i] != '\\')
  {
    hide HexDigit;
    if !Plain(c) && ShortEscape(c).None? {
      var e := EscapeChar(c);
      HexPlain(c as nat / 16 % 16);
      HexPlain(c as nat % 16);
      assert e == ['\\', 'u', '0', '0', HexDigit(c as nat / 16 % 16), HexDigit(c as nat % 16)];
    }
  }

  lemma CharScanned(w: string, p: nat, c: char)
    requires Stands(w, p, EscapeChar(c))
    ensures LiteralEnd(w, p) == LiteralEnd(w, p + |EscapeChar(c)|)
  {
    hide EscapeChar;
    var e := EscapeChar(c);
    EscapeForm(c);
    assert w[p] == w[p..p + |e|][0];
    if |e| == 6 {
      assert LiteralEnd(w, p) == LiteralEnd(w, p + 2);
      PlainScanned(w, p, e, 2);
      PlainScanned(w, p, e, 3);
      PlainScanned(w, p, e, 4);
      PlainScanned(w, p, e, 5);
    }
  }

  lemma PlainScanned(w: string, p: nat, e: string, i: nat)
    requires Stands(w, p, e) && i < |e| && e[i] != '\"' && e[i] != '\\'
    ensures LiteralEnd(w, p + i) == LiteralEnd(w, p + i + 1)
  {
    assert w[p + i] == w[p..p + |e|][i];
  }

  lemma HexPlain(n: nat)
    requires n < 16
    ensures HexDigit(n) != '\"' && HexDigit(n) != '\\'
  {
  }

  lemma QuoteCopied(s: string, t: string)
    ensures Minified(Quote(s) + t) == Onto(Quote(s), Minified(t))
  {
    hide Escape;
    var whole := Quote(s) + t;
    assert whole[1..1 + |Escape(s)|] == Escape(s);
    EscapeScanned(whole, 1, s);
    assert whole[1 + |Escape(s)|] == '\"';
    assert LiteralEnd(whole, 1) == Some(|Quote(s)|);
    assert whole[..|Quote(s)|] == Quote(s) && whole[|Quote(s)|..] == t;
  }

  lemma NumberCopied(digits: string)
    requires NumberText(digits)
    ensures forall i :: 0 <= i < |digits| ==> Copied(digits[i])
  {
    hide StrtodLength;
  }

  /** Two texts in a row. */
  lemma Chain(s: string, s': string, t: string, t': string, rest: string)
    requires Minified(s + (t + rest)) == Onto(s', Minified(t + rest))
    requires Minified(t + rest) == Onto(t', Minified(rest))
    ensures Minified((s + t) + rest) == Onto(s' + t', Minified(rest))
  {
    hide Minified;
    assert (s + t) + rest == s + (t + rest);
    OntoTwice(s', t', Minified(rest));
  }

  /** The blanks of the formatted print go, everything else stays. */
  lemma {:induction false} MinifyText(v: Json, depth: nat, depth': nat, rest: string)
    requires Printable(v)
    ensures Minified(Text(v, true, depth) + rest) == Onto(Text(v, false, depth'), Minified(rest))
    decreases v, 1
  {
    hide Minified, Quote, NumberText;
    match v
    case Null => CopyAll("null", rest);
    case False => CopyAll("false", rest);
    case True => CopyAll("true", rest);
    case Number(digits) => NumberCopied(digits); CopyAll(digits, rest);
    case Str(s) => QuoteCopied(s, rest);
    case Arr(items) => MinifyArray(items, depth, depth', rest);
    case Obj(members) => MinifyObject(members, depth, depth', rest);
  }

  lemma MinifyArray(items: seq<Json>, depth: nat, depth': nat, rest: string)
    requires PrintableItems(items)
    ensures Minified(Text(Arr(items), true, depth) + rest) == Onto(Text(Arr(items), false, depth'), Minified(rest))
    decreases items, 1
  {
    hide Minified, Text, TextItems;
    var inner, inner' := TextItems(items, true, depth + 1), TextItems(items, false, depth' + 1);
    ArrayText(items, true, depth);
    ArrayText(items, false, depth');
    CopyAll("[", (inner + "]") + rest);
    MinifyItems(items, depth + 1, depth' + 1, "]" + rest);
    CopyAll("]", rest);
    Chain(inner, inner', "]", "]", rest);
    Chain("[", "[", inner + "]", inner' + "]", rest);
  }

  lemma {:induction false} MinifyItems(items: seq<Json>, depth: nat, depth': nat, rest: string)
    requires PrintableItems(items)
    ensures Minified(TextItems(items, true, depth) + rest) == Onto(TextItems(items, false, depth'), Minified(rest))
    decreases items, 0
  {
    hide Minified, Text, TextItems;
    ItemsText(items, true, depth);
    ItemsText(items, false, depth');
    if items == [] {
      assert "" + rest == rest;
      OntoNothing(Minified(rest));
    } else {
      var more := |items| > 1;
      var tail, tail' := TextItems(items[1..], true, depth), TextItems(items[1..], false, depth');
      var head, head' := Text(items[0], true, depth), Text(items[0], false, depth');
      MinifyItems(items[1..], depth, depth', rest);
      SepMinified(more, tail + rest);
      Chain(Comma(more, true), Comma(more, false), tail, tail', rest);
      MinifyText(items[0], depth, depth', (Comma(more, true) + tail) + rest);
      Chain(head, head', Comma(more, true) + tail, Comma(more, false) + tail', rest);
    }
  }

  lemma SepMinified(more: bool, rest: string)
    ensures Minified(Comma(more, true) + rest) == Onto(Comma(more, false), Minified(rest))
  {
    hide Minified;
    if more {
      assert ", " + rest == "," + (" " + rest);
      CopyAll(",", " " + rest);
      SkipAll(" ", rest);
    } else {
      assert "" + rest == rest;
      OntoNothing(Minified(rest));
    }
  }

  lemma ItemsText(items: seq<Json>, format: bool, depth: nat)
    ensures items == [] ==> TextItems(items, format, depth) == ""
    ensures items != [] ==>
      TextItems(items, format, depth)
      == Text(items[0], format, depth) + (Comma(|items| > 1, format) + TextItems(items[1..], format, depth))
  {
    hide Text;
  }

  lemma MinifyObject(members: seq<Member>, depth: nat, depth': nat, rest: string)
    requires PrintableMembers(members)
    ensures Minified(Text(Obj(members), true, depth) + rest) == Onto(Text(Obj(members), false, depth'), Minified(rest))
    decreases members, 1
  {
    hide Minified, Text, TextMembers;
    var inner, inner' := TextMembers(members, true, depth + 1), TextMembers(members, false, depth' + 1);
    ObjectText(members, true, depth);
    ObjectText(members, false, depth');
    var close, close' := Closing(true, depth), Closing(false, depth');
    CloseMinified(depth, depth', rest);
    MinifyMembers(members, depth + 1, depth' + 1, close + rest);
    Chain(inner, inner', close, close', rest);
    OpenMinified((inner + close) + rest);
    Chain("{" + NewLine(true), "{" + NewLine(false), inner + close, inner' + close', rest);
    assert "{" + (NewLine(true) + (inner + close)) == ("{" + NewLine(true)) + (inner + close);
    assert "{" + (NewLine(false) + (inner' + close')) == ("{" + NewLine(false)) + (inner' + close');
  }

  lemma OpenMinified(rest: string)
    ensures Minified(("{" + NewLine(true)) + rest) == Onto("{" + NewLine(false), Minified(rest))
  {
    hide Minified;
    assert ("{" + NewLine(true)) + rest == "{" + ("\n" + rest);
    assert "{" + NewLine(false) == "{";
    CopyAll("{", "\n" + rest);
    SkipAll("\n", rest);
  }

  lemma CloseMinified(depth: nat, depth': nat, rest: string)
    ensures Minified(Closing(true, depth) + rest) == Onto(Closing(false, depth'), Minified(rest))
  {
    hide Minified;
    assert Closing(true, depth) + rest == Tabs(depth) + ("}" + rest);
    assert Closing(false, depth') == "}";
    SkipAll(Tabs(depth), "}" + rest);
    CopyAll("}", rest);
  }

  lemma MembersText(members: seq<Member>, format: bool, depth: nat)
    ensures members == [] ==> TextMembers(members, format, depth) == ""
    ensures members != [] ==>
      TextMembers(members, format, depth)
      == (Indent(format, depth) + Quote(members[0].key) + Colon(format))
         + (Text(members[0].value, format, depth)
            + (LineEnd(|members| > 1, format) + TextMembers(members[1..], format, depth)))
  {
    hide Text, Quote;
  }

  lemma BreakMinified(more: bool, rest: string)
    ensures Minified(LineEnd(more, true) + rest) == Onto(LineEnd(more, false), Minified(rest))
  {
    hide Minified;
    SkipAll("\n", rest);
    if more {
      assert LineEnd(more, true) + rest == "," + ("\n" + rest);
      assert LineEnd(more, false) == ",";
      CopyAll(",", "\n" + rest);
    } else {
      assert LineEnd(more, true) == "\n" && LineEnd(more, false) == "";
      OntoNothing(Minified(rest));
    }
  }

  lemma NameMinified(key: string, depth: nat, depth': nat, rest: string)
    ensures Minified((Indent(true, depth) + Quote(key) + Colon(true)) + rest)
         == Onto(Indent(false, depth') + Quote(key) + Colon(false), Minified(rest))
  {
    hide Minified, Quote;
    var name := Quote(key);
    assert (Indent(true, depth) + name + Colon(true)) + rest == Tabs(depth) + (name + (":" + ("\t" + rest)));
    assert Indent(false, depth') + name + Colon(false) == name + ":";
    SkipAll(Tabs(depth), name + (":" + ("\t" + rest)));
    QuoteCopied(key, ":" + ("\t" + rest));
    CopyAll(":", "\t" + rest);
    SkipAll("\t", rest);
    OntoTwice(name, ":", Minified(rest));
  }

  lemma {:induction false} MinifyMembers(members: seq<Member>, depth: nat, depth': nat, rest: string)
    requires PrintableMembers(members)
    ensures Minified(TextMembers(members, true, depth) + rest)
         == Onto(TextMembers(members, false, depth'), Minified(rest))
    decreases members, 0
  {
    hide Minified, Text, TextMembers, Quote, Indent, Colon, LineEnd;
    MembersText(members, true, depth);
    MembersText(members, false, depth');
    if members == [] {
      assert "" + rest == rest;
      OntoNothing(Minified(rest));
    } else {
      var m, more := members[0], |members| > 1;
      var tail, tail' := TextMembers(members[1..], true, depth), TextMembers(members[1..], false, depth');
      var line, line' := LineEnd(more, true), LineEnd(more, false);
      var value, value' := Text(m.value, true, depth), Text(m.value, false, depth');
      var name := Indent(true, depth) + Quote(m.key) + Colon(true);
      var name' := Indent(false, depth') + Quote(m.key) + Colon(false);
      MinifyMembers(members[1..], depth, depth', rest);
      BreakMinified(more, tail + rest);
      Chain(line, line', tail, tail', rest);
      MinifyText(m.value, depth, depth', (line + tail) + rest);
      Chain(value, value', line + tail, line' + tail', rest);
      NameMinified(m.key, depth, depth', (value + (line + tail)) + rest);
      Chain(name, name', value + (line + tail), value' + (line' + tail'), rest);
    }
  }

  /** cJSON_Minify of what cJSON_Print wrote is what cJSON_PrintUnformatted writes. */
  lemma MinifyPrinted(v: Json)
    requires Printable(v)
    ensures Minified(Text(v, true, 0)) == Some(Text(v, false, 0))
  {
    hide Minified, Text;
    MinifyText(v, 0, 0, "");
    assert Text(v, true, 0) + "" == Text(v, true, 0);
    MinifiedNothing();
    assert Text(v, false, 0) + "" == Text(v, false, 0);
  }

  lemma MinifiedNothing()
    ensures Minified("") == Some("")
  {
  }

  lemma MinifyStep(s: string)
    requires s != []
    ensures Blank(s[0]) ==> Minified(s) == Minified(s[1..])
    ensures Copied(s[0]) ==> Minified(s) == Onto([s[0]], Minified(s[1..]))
    ensures s[0] == '/' && |s| > 1 && s[1] == '/' ==> Minified(s) == Minified(s[LineEnding(s, 2)..])
    ensures s[0] == '/' && |s| > 1 && s[1] == '*' && Minified(s).Some? ==>
      CommentEnd(s, 1).Some? && Minified(s) == Minified(s[CommentEnd(s, 1).value..])
    ensures s[0] == '/' && (|s| == 1 || (s[1] != '/' && s[1] != '*')) ==> Minified(s) == Onto([s[0]], Minified(s[1..]))
    ensures s[0] == '\"' && Minified(s).Some? ==>
      LiteralEnd(s, 1).Some? && Minified(s) == Onto(s[..LiteralEnd(s, 1).value], Minified(s[LiteralEnd(s, 1).value..]))
  {
    hide LineEnding, CommentEnd, LiteralEnd;
  }
}
