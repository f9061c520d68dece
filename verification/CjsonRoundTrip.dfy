/** Parsing what was printed gives the value back, and the parser stops at its end. */
module CjsonRoundTrip {
  import opened CjsonKeys
  import opened CjsonString
  import opened CjsonText
  import opened CjsonGrammar

  // ---------------------------------------------------------------- which values are meant

  /** A number text as print_number writes it: at most 25 characters that strtod takes as a whole. */
  predicate NumberText(t: string) {
    && 0 < |t| <= 25
    && (t[0] == '-' || IsDigit(t[0]))
    && (forall i :: 0 <= i < |t| ==> NumberChar(t[i]))
    && StrtodLength(t) == |t|
  }

  predicate CText(s: string) {
    NulFree(s) && Bytes(s)
  }

  predicate Printable(v: Json)
    decreases v
  {
    match v
    case Number(t) => NumberText(t)
    case Str(s) => CText(s)
    case Arr(items) => PrintableItems(items)
    case Obj(members) => PrintableMembers(members)
    case _ => true
  }

  predicate PrintableItems(items: seq<Json>)
    decreases items
  {
    items == [] || (Printable(items[0]) && PrintableItems(items[1..]))
  }

  predicate PrintableMembers(members: seq<Member>)
    decreases members
  {
    members == [] || (CText(members[0].key) && Printable(members[0].value) && PrintableMembers(members[1..]))
  }

  // ---------------------------------------------------------------- the parts of a printed text

  /** What stands between two elements. */
  function Comma(more: bool, format: bool): string {
    if !more then "" else if format then ", " else ","
  }

  /** What stands behind a member. */
  function LineEnd(more: bool, format: bool): string {
    (if more then "," else "") + (if format then "\n" else "")
  }

  lemma ArrayText(items: seq<Json>, format: bool, at: nat)
    ensures Text(Arr(items), format, at) == "[" + (TextItems(items, format, at + 1) + "]")
    ensures items == [] ==> TextItems(items, format, at + 1) == ""
  {
  }

  function Indent(format: bool, n: nat): (s: string)
    ensures forall i :: 0 <= i < |s| ==> s[i] <= ' '
  {
    if format then Tabs(n) else ""
  }

  function Colon(format: bool): (s: string)
    ensures s != [] && s[0] == ':'
  {
    if format then ":\t" else ":"
  }

  function NewLine(format: bool): (s: string)
    ensures forall i :: 0 <= i < |s| ==> s[i] <= ' '
  {
    if format then "\n" else ""
  }

  function MemberHead(m: Member, format: bool, at: nat): string {
    Indent(format, at) + Quote(m.key) + Colon(format) + Text(m.value, format, at)
  }

  lemma TextMembersSplit(members: seq<Member>, format: bool, at: nat)
    requires members != []
    ensures |members| == 1 ==> TextMembers(members, format, at) == MemberHead(members[0], format, at) + NewLine(format)
    ensures |members| > 1 ==>
      TextMembers(members, format, at)
      == MemberHead(members[0], format, at) + ("," + NewLine(format)) + TextMembers(members[1..], format, at)
  {
    assert |members| == 1 ==> members[1..] == [];
  }

  function Closing(format: bool, at: nat): string {
    Indent(format, at) + "}"
  }

  lemma ObjectText(members: seq<Member>, format: bool, at: nat)
    ensures Text(Obj(members), format, at)
         == "{" + (NewLine(format) + (TextMembers(members, format, at + 1) + Closing(format, at)))
    ensures members == [] ==> TextMembers(members, format, at + 1) == ""
  {
  }

  // ---------------------------------------------------------------- a printed text as a syntax tree

  lemma PiecesFine(s: string)
    requires Bytes(s)
    ensures Pieces(PiecesOf(s))
  {
    hide Scans, Sources, PiecesOf, Piece.Taken, Piece.Ok;
    PiecesMean(s);
    AllOkScans(PiecesOf(s));
  }

  /** The tree whose text print_value writes for v at depth `at`. */
  function TreeOf(v: Json, format: bool, at: nat): (t: Syntax)
    requires Printable(v)
    ensures Readable(t)
    decreases v
  {
    match v
    case Null => NullWord
    case False => FalseWord
    case True => TrueWord
    case Number(t) => Numeral(t)
    case Str(s) =>
      PiecesFine(s);
      Quoted(PiecesOf(s))
    case Arr(items) => Brackets("", ElementsOf(items, "", format, at + 1))
    case Obj(members) =>
      var gap := NewLine(format) + Indent(format, at);
      Braces(gap, FieldsOf(members, format, at + 1, gap))
  }

  /** The elements, the first one behind the blanks `gap`. */
  function ElementsOf(items: seq<Json>, gap: string, format: bool, at: nat): (es: seq<Element>)
    requires PrintableItems(items) && Blanks(gap)
    ensures ReadableElements(es) && |es| == |items|
    decreases items
  {
    if items == [] then []
    else
      var es := ElementsOf(items[1..], if format then " " else "", format, at);
      var e := Element(gap, TreeOf(items[0], format, at), "");
      assert ([e] + es)[1..] == es;
      [e] + es
  }

  /** The members; the last one is followed by the blanks `end`. */
  function FieldsOf(members: seq<Member>, format: bool, at: nat, end: string): (fs: seq<Field>)
    requires PrintableMembers(members) && Blanks(end)
    ensures ReadableFields(fs) && |fs| == |members|
    decreases members
  {
    if members == [] then []
    else
      var fs := FieldsOf(members[1..], format, at, end);
      PiecesFine(members[0].key);
      var f := Field(NewLine(format) + Indent(format, at), PiecesOf(members[0].key), "", if format then "\t" else "",
                     TreeOf(members[0].value, format, at), if |members| == 1 then end else "");
      assert ([f] + fs)[1..] == fs;
      [f] + fs
  }

  lemma {:induction false} TreeMeans(v: Json, format: bool, at: nat)
    requires Printable(v)
    ensures ValueOf(TreeOf(v, format, at)) == v
    decreases v, 1
  {
    hide Readable, ReadableElements, ReadableFields, NumberText, NumeralOk, PiecesOf, ElementsOf, FieldsOf, Indent,
      NewLine, Values, Members, Meanings, CString, PrintableItems, PrintableMembers, NulFree, Bytes;
    match v
    case Str(s) =>
      CStringOfText(s);
      PiecesMean(s);
    case Arr(items) => ElementsMean(items, "", format, at + 1);
    case Obj(members) => FieldsMean(members, format, at + 1, NewLine(format) + Indent(format, at));
    case _ =>
  }

  lemma CStringOfText(s: string)
    requires NulFree(s)
    ensures CString(s) == s
  {
  }

  lemma {:induction false} ElementsMean(items: seq<Json>, gap: string, format: bool, at: nat)
    requires PrintableItems(items) && Blanks(gap)
    ensures Values(ElementsOf(items, gap, format, at)) == items
    decreases items, 0
  {
    hide TreeOf, Printable;
    if items != [] {
      TreeMeans(items[0], format, at);
      ElementsMean(items[1..], if format then " " else "", format, at);
      ValuesParts(ElementsOf(items, gap, format, at));
      assert items == [items[0]] + items[1..];
    }
  }

  lemma {:induction false} FieldsMean(members: seq<Member>, format: bool, at: nat, end: string)
    requires PrintableMembers(members) && Blanks(end)
    ensures Members(FieldsOf(members, format, at, end)) == members
    decreases members, 0
  {
    hide TreeOf, Printable, PiecesOf;
    if members != [] {
      TreeMeans(members[0].value, format, at);
      FieldsMean(members[1..], format, at, end);
      MembersParts(FieldsOf(members, format, at, end));
      CStringOfText(members[0].key);
      PiecesMean(members[0].key);
      assert members == [members[0]] + members[1..];
    }
  }

  /** The text of the tree is the printed text. */
  lemma {:induction false} TreeText(v: Json, format: bool, at: nat)
    requires Printable(v)
    ensures Source(TreeOf(v, format, at)) == Text(v, format, at)
    decreases v, 1
  {
    hide TextItems, TextMembers, ElementsSource, FieldsSource, ElementsOf, FieldsOf;
    match v
    case Arr(items) =>
      ArrayText(items, format, at);
      BracketsText(TreeOf(v, format, at));
      if items != [] {
        ItemsText(items, "", format, at + 1);
        assert "" + TextItems(items, format, at + 1) == TextItems(items, format, at + 1);
      } else {
        NoElements(format, at + 1);
      }
    case Str(s) => NameText(s);
    case Obj(members) => ObjectSource(members, format, at);
    case _ =>
  }

  lemma NoElements(format: bool, at: nat)
    ensures ElementsOf([], "", format, at) == []
  {
  }

  /** The pieces of an element's text, grouped as the tree has them and as the printer writes them. */
  lemma ItemGroups(text: string, blank: string, rest: string)
    ensures text + ("" + ("," + (blank + rest))) == text + ("," + blank) + rest
    ensures text + ("" + "") == text
  {
    assert "" + ("," + (blank + rest)) == "," + (blank + rest);
    Regroup(",", blank, rest);
    Regroup(text, "," + blank, rest);
  }

  lemma TextItemsSplit(items: seq<Json>, blank: string, format: bool, at: nat)
    requires items != [] && blank == if format then " " else ""
    ensures TextItems(items, format, at) ==
      if |items| == 1 then Text(items[0], format, at)
      else Text(items[0], format, at) + ("," + blank) + TextItems(items[1..], format, at)
  {
    hide Text;
    assert |items| == 1 ==> items[1..] == [];
    assert "," + blank == if format then ", " else ",";
  }

  lemma ItemsText(items: seq<Json>, gap: string, format: bool, at: nat)
    requires items != [] && PrintableItems(items) && Blanks(gap)
    ensures ElementsSource(ElementsOf(items, gap, format, at)) == gap + TextItems(items, format, at)
    decreases items, 0
  {
    hide TreeOf, Printable, Text, TextItems, Source;
    var es, blank := ElementsOf(items, gap, format, at), if format then " " else "";
    TreeText(items[0], format, at);
    TextItemsSplit(items, blank, format, at);
    ItemGroups(Text(items[0], format, at), blank, if |items| > 1 then TextItems(items[1..], format, at) else "");
    if |items| > 1 {
      ItemsText(items[1..], blank, format, at);
      assert es[1..] == ElementsOf(items[1..], blank, format, at);
    }
  }

  /** The pieces of a member's text, grouped as the tree has them and as the printer writes them. */
  lemma MemberGroups(line: string, indent: string, name: string, blank: string, text: string, tail: string)
    ensures (line + indent) + (name + ("" + (":" + (blank + (text + tail)))))
         == line + ((indent + name + (":" + blank) + text) + tail)
  {
    assert "" + (":" + (blank + (text + tail))) == (":" + blank) + (text + tail);
    Regroup(line, indent, name + ((":" + blank) + (text + tail)));
    Regroup(indent + name + (":" + blank), text, tail);
    Regroup(indent + name, ":" + blank, text + tail);
    Regroup(indent, name, (":" + blank) + (text + tail));
  }

  lemma NameText(k: string)
    requires CText(k)
    ensures Pieces(PiecesOf(k)) && Enclosed(PiecesOf(k)) == Quote(k)
  {
    hide Pieces, Sources, PiecesOf, Escape;
    PiecesFine(k);
    PiecesMean(k);
  }

  lemma MembersText(members: seq<Member>, format: bool, at: nat)
    requires members != [] && PrintableMembers(members) && at > 0
    ensures FieldsSource(FieldsOf(members, format, at, NewLine(format) + Indent(format, at - 1)))
         == NewLine(format) + (TextMembers(members, format, at) + Indent(format, at - 1))
    decreases members, 0
  {
    hide TreeOf, Printable, Text, Source, TextMembers, PiecesOf, Pieces, Enclosed, Quote, Indent, NewLine;
    var m, line, indent := members[0], NewLine(format), Indent(format, at - 1);
    var end := line + indent;
    var fs := FieldsOf(members, format, at, end);
    TreeText(m.value, format, at);
    NameText(m.key);
    TextMembersSplit(members, format, at);
    var text, blank := Text(m.value, format, at), if format then "\t" else "";
    var head := MemberHead(m, format, at);
    assert ":" + blank == Colon(format);
    if |members| == 1 {
      assert end + "" == end;
      MemberGroups(line, Indent(format, at), Quote(m.key), blank, text, end);
      Regroup(head, line, indent);
    } else {
      var rest := TextMembers(members[1..], format, at);
      MembersText(members[1..], format, at);
      assert fs[1..] == FieldsOf(members[1..], format, at, end);
      var tail := "," + (line + (rest + indent));
      assert "" + tail == tail;
      MemberGroups(line, Indent(format, at), Quote(m.key), blank, text, tail);
      CommaGroups(head, line, rest, indent);
    }
  }

  lemma CommaGroups(head: string, line: string, rest: string, indent: string)
    ensures head + ("," + (line + (rest + indent))) == (head + ("," + line) + rest) + indent
  {
    Regroup(",", line, rest + indent);
    Regroup(head, "," + line, rest + indent);
    Regroup(head + ("," + line), rest, indent);
  }

  lemma ObjectSource(members: seq<Member>, format: bool, at: nat)
    requires PrintableMembers(members)
    ensures Source(TreeOf(Obj(members), format, at)) == Text(Obj(members), format, at)
    decreases members, 1
  {
    hide TextMembers, FieldsSource, Text, Indent, NewLine, Source;
    var line, indent, text := NewLine(format), Indent(format, at), TextMembers(members, format, at + 1);
    var t := TreeOf(Obj(members), format, at);
    ObjectText(members, format, at);
    BracesText(t);
    if members != [] {
      MembersText(members, format, at + 1);
    } else {
      assert "" + indent == indent;
    }
    Regroup(line, text + indent, "}");
    Regroup(text, indent, "}");
  }

  // ---------------------------------------------------------------- parsing back

  /** A printed value, at any place and depth, parses back to itself and the parser stops right behind it; nested too
      deep, wherever the deep part is, it is refused. */
  lemma ParsesBack(v: Json, format: bool, at: nat, b: string, p: nat, depth: nat)
    requires Terminated(b) && Printable(v) && depth <= NESTING_LIMIT
    requires Stands(b, p, Text(v, format, at)) && Ends(b, p + |Text(v, format, at)|)
    ensures ParseValue(b, p, depth) ==
      if depth + Height(v) <= NESTING_LIMIT then Done(v, p + |Text(v, format, at)|) else Fail
  {
    hide TreeOf, Text, ParseValue, Height, Printable, Source, ValueOf, Readable;
    TreeText(v, format, at);
    TreeMeans(v, format, at);
    SyntaxParses(TreeOf(v, format, at), b, p, depth);
  }

  /** cJSON_Parse of what cJSON_Print or cJSON_PrintUnformatted wrote: the same value, and the parse ends
      exactly where the text ends.  Deeper than NESTING_LIMIT, and only then, it is refused. */
  lemma PrintThenParse(v: Json, format: bool)
    requires Printable(v)
    ensures Height(v) <= NESTING_LIMIT ==> Parse(Text(v, format, 0)) == Done(v, |Text(v, format, 0)|)
    ensures Height(v) > NESTING_LIMIT ==> Parse(Text(v, format, 0)) == Fail
  {
    hide TreeOf, Text, Parse, Height, Printable, Source, ValueOf, Readable;
    var t, text := TreeOf(v, format, 0), Text(v, format, 0);
    TreeText(v, format, 0);
    TreeMeans(v, format, 0);
    TextParses("", t, "");
    assert "" + (text + "") == text;
  }
}
