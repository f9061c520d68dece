/** What cJSON prints is a JSON text as RFC 8259 defines it. */
module CjsonRfcPrint {
  import opened CjsonKeys
  import opened CjsonString
  import opened CjsonText
  import opened CjsonGrammar
  import opened CjsonRoundTrip
  import opened CjsonRfc8259

  /** The numbers in v, as printed, are those of RFC 8259: sprintf writes no others, but it writes "inf" and "nan". */
  ghost predicate RfcNumbers(v: Json)
    decreases v
  {
    match v
    case Number(t) => RfcNumber(t)
    case Arr(items) => forall i :: 0 <= i < |items| ==> RfcNumbers(items[i])
    case Obj(members) => forall i :: 0 <= i < |members| ==> RfcNumbers(members[i].value)
    case _ => true
  }

  lemma PiecesAreRfc(s: string)
    requires Bytes(s)
    ensures RfcString(PiecesOf(s))
  {
  }

  lemma BlanksAreRfc(format: bool, n: nat)
    ensures Ws(NewLine(format) + Indent(format, n)) && Ws("") && Ws("\t") && Ws(" ")
  {
  }

  ghost predicate RfcElements(es: seq<Element>) {
    forall i :: 0 <= i < |es| ==> Ws(es[i].before) && Rfc8259(es[i].value) && Ws(es[i].after)
  }

  ghost predicate RfcFields(fs: seq<Field>) {
    forall i :: 0 <= i < |fs| ==>
      && Ws(fs[i].before) && RfcString(fs[i].name) && Ws(fs[i].beforeColon) && Ws(fs[i].afterColon)
      && Rfc8259(fs[i].value) && Ws(fs[i].after)
  }

  lemma {:induction false} TreeIsRfc(v: Json, format: bool, at: nat)
    requires Printable(v) && RfcNumbers(v)
    ensures Rfc8259(TreeOf(v, format, at))
    decreases v, 1
  {
    hide RfcNumber, StrtodLength, Ws, RfcString, PiecesOf, Pieces, Readable, ElementsOf, FieldsOf, NewLine, Indent;
    match v
    case Str(s) => PiecesAreRfc(s);
    case Arr(items) =>
      BlanksAreRfc(format, at);
      ElementsAreRfc(items, "", format, at + 1);
    case Obj(members) =>
      BlanksAreRfc(format, at);
      FieldsAreRfc(members, format, at + 1, NewLine(format) + Indent(format, at));
    case _ =>
  }

  lemma {:induction false} ElementsAreRfc(items: seq<Json>, gap: string, format: bool, at: nat)
    requires PrintableItems(items) && Blanks(gap) && Ws(gap)
    requires forall i :: 0 <= i < |items| ==> RfcNumbers(items[i])
    ensures RfcElements(ElementsOf(items, gap, format, at))
    decreases items, 0
  {
    hide TreeOf, Rfc8259, RfcNumbers, Ws, Readable;
    if items != [] {
      BlanksAreRfc(format, at);
      TreeIsRfc(items[0], format, at);
      assert forall i :: 0 <= i < |items[1..]| ==> items[1..][i] == items[i + 1];
      var gap' := if format then " " else "";
      ElementsAreRfc(items[1..], gap', format, at);
      var es, rest := ElementsOf(items, gap, format, at), ElementsOf(items[1..], gap', format, at);
      assert es == [Element(gap, TreeOf(items[0], format, at), "")] + rest;
      assert forall i :: 0 < i < |es| ==> es[i] == rest[i - 1];
    }
  }

  lemma {:induction false} FieldsAreRfc(members: seq<Member>, format: bool, at: nat, end: string)
    requires PrintableMembers(members) && Blanks(end) && Ws(end)
    requires forall i :: 0 <= i < |members| ==> RfcNumbers(members[i].value)
    ensures RfcFields(FieldsOf(members, format, at, end))
    decreases members, 0
  {
    hide TreeOf, Rfc8259, RfcNumbers, Ws, Readable, RfcString, PiecesOf, Pieces, NewLine, Indent;
    if members != [] {
      BlanksAreRfc(format, at);
      PiecesAreRfc(members[0].key);
      TreeIsRfc(members[0].value, format, at);
      assert forall i :: 0 <= i < |members[1..]| ==> members[1..][i] == members[i + 1];
      FieldsAreRfc(members[1..], format, at, end);
      var fs, rest := FieldsOf(members, format, at, end), FieldsOf(members[1..], format, at, end);
      assert forall i :: 0 < i < |fs| ==> fs[i] == rest[i - 1];
    }
  }

  /** Every print, formatted or not, is a JSON text of RFC 8259 with this value. */
  lemma PrintsRfcText(v: Json, format: bool)
    requires Printable(v) && RfcNumbers(v)
    ensures exists t: Syntax ::
      Rfc8259(t) && Readable(t) && Source(t) == Text(v, format, 0) && ValueOf(t) == v
  {
    hide Printable, RfcNumbers, Rfc8259, Text, ValueOf, Source;
    var t := TreeOf(v, format, 0);
    TreeIsRfc(v, format, 0);
    TreeText(v, format, 0);
    TreeMeans(v, format, 0);
  }
}
