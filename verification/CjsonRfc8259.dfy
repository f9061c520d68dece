/** JSON texts as RFC 8259 defines them, and that cJSON_Parse accepts them. */
module CjsonRfc8259 {
  import opened CjsonKeys
  import opened CjsonString
  import opened CjsonText
  import opened CjsonGrammar

  predicate Digits(s: string) {
    forall i :: 0 <= i < |s| ==> IsDigit(s[i])
  }

  /** Section 6: sign, integer part, fraction and exponent; "" where there is none. */
  datatype NumberParts = NumberParts(minus: bool, whole: string, frac: string, e: char, sign: string, exp: string)
  {
    predicate Ok() {
      && whole != "" && Digits(whole) && (whole[0] != '0' || |whole| == 1) && Digits(frac) && Digits(exp)
      && (e == 'e' || e == 'E') && (sign == "" || sign == "+" || sign == "-")
    }

    function Whole(): string {
      (if minus then "-" else "") + whole
    }

    function Fraction(): string {
      if frac == "" then "" else "." + frac
    }

    function Exponent(): string {
      if exp == "" then "" else [e] + sign + exp
    }

    function Text(): string {
      Whole() + Fraction() + Exponent()
    }
  }

  ghost predicate RfcNumber(t: string) {
    exists n: NumberParts :: n.Ok() && n.Text() == t
  }

  predicate Ws(s: string) {
    forall i :: 0 <= i < |s| ==> s[i] == ' ' || s[i] == '\t' || s[i] == '\n' || s[i] == '\r'
  }

  /** Section 7: control characters are escaped.  Escapes of surrogates are taken to come in pairs; section 8.2 leaves
      the meaning of others open. */
  predicate RfcString(ps: seq<Piece>) {
    AllOk(ps) && forall i :: 0 <= i < |ps| ==> ps[i].Byte? ==> ps[i].c >= ' '
  }

  /** Section 7: what an escape of one letter stands for. */
  const ESCAPES: map<char, char> := map[
    '\"' := '\U{22}', '\\' := '\U{5c}', '/' := '\U{2f}', 'b' := '\U{8}', 'f' := '\U{c}', 'n' := '\U{a}', 'r' := '\U{d}',
    't' := '\U{9}']

  /** The decoder knows just these, with these meanings. */
  lemma EscapesAreRfc(c: char)
    ensures Unescape(c).Some? <==> c in ESCAPES
    ensures c in ESCAPES ==> Unescape(c).value == ESCAPES[c]
  {
  }

  /** The trees of RFC 8259 whose numbers have at most 63 bytes. */
  ghost predicate Rfc8259(t: Syntax)
    decreases t
  {
    match t
    case Numeral(text) => RfcNumber(text) && |text| <= 63
    case Quoted(ps) => RfcString(ps)
    case Brackets(gap, es) =>
      && Ws(gap)
      && forall i :: 0 <= i < |es| ==> Ws(es[i].before) && Rfc8259(es[i].value) && Ws(es[i].after)
    case Braces(gap, fs) =>
      && Ws(gap)
      && forall i :: 0 <= i < |fs| ==>
           && Ws(fs[i].before) && RfcString(fs[i].name) && Ws(fs[i].beforeColon) && Ws(fs[i].afterColon)
           && Rfc8259(fs[i].value) && Ws(fs[i].after)
    case _ => true
  }

  lemma {:induction false} DigitsTaken(t: string, p: nat, ds: string)
    requires Stands(t, p, ds) && Digits(ds) && (p + |ds| == |t| || !IsDigit(t[p + |ds|]))
    ensures DigitRun(t, p) == |ds|
    decreases |ds|
  {
    if ds != [] {
      assert ds == [ds[0]] + ds[1..];
      StandsParts(t, p, [ds[0]], ds[1..]);
      StandsChar(t, p, ds[0]);
      DigitsTaken(t, p + 1, ds[1..]);
    }
  }

  /** Where the parts of a number stand. */
  ghost predicate Laid(t: string, n: NumberParts, p: nat, q: nat) {
    && Stands(t, 0, n.Whole()) && Stands(t, p, n.Fraction()) && Stands(t, q, n.Exponent())
    && p == |n.Whole()| && q == p + |n.Fraction()| && |t| == q + |n.Exponent()|
  }

  lemma NumberLayout(n: NumberParts)
    requires n.Ok()
    ensures var p := |n.Whole()|; Laid(n.Text(), n, p, p + |n.Fraction()|)
  {
    hide NumberParts.Whole, NumberParts.Fraction, NumberParts.Exponent;
    var t := n.Text();
    assert t[0..0 + |t|] == t;
    StandsParts(t, 0, n.Whole() + n.Fraction(), n.Exponent());
    StandsParts(t, 0, n.Whole(), n.Fraction());
  }

  /** strtod takes the sign and the integer part ... */
  lemma WholeTaken(t: string, n: NumberParts, p: nat, q: nat)
    requires n.Ok() && Laid(t, n, p, q)
    ensures var s := if n.minus then 1 else 0; SignAt(t, 0) == s && DigitRun(t, s) == |n.whole| && s + |n.whole| == p
  {
    hide Stands, DigitRun;
    StandsHead(t, 0, n.Whole());
    if n.minus {
      StandsParts(t, 0, "-", n.whole);
    } else {
      assert n.Whole() == n.whole;
    }
    if n.Fraction() != "" {
      StandsHead(t, p, n.Fraction());
    } else if n.Exponent() != "" {
      StandsHead(t, q, n.Exponent());
    }
    DigitsTaken(t, if n.minus then 1 else 0, n.whole);
  }

  lemma ExponentOpens(n: NumberParts)
    requires n.Ok()
    ensures n.Exponent() != "" ==> n.Exponent()[0] == n.e && !IsDigit(n.e) && n.e != '.'
  {
  }

  /** ... the fraction ... */
  lemma FractionTaken(t: string, n: NumberParts, p: nat, q: nat)
    requires n.Ok() && Laid(t, n, p, q)
    ensures if n.frac != "" then p < |t| && t[p] == '.' && DigitRun(t, p + 1) == |n.frac| && q == p + 1 + |n.frac|
            else q == p && (p < |t| ==> t[p] != '.')
  {
    hide Stands, DigitRun, Digits, NumberParts.Whole, NumberParts.Exponent;
    ExponentOpens(n);
    if n.Exponent() != "" {
      StandsHead(t, q, n.Exponent());
    }
    if n.frac != "" {
      StandsParts(t, p, ".", n.frac);
      StandsChar(t, p, '.');
      DigitsTaken(t, p + 1, n.frac);
    }
  }

  lemma SignedDigits(t: string, q: nat, sign: string, ds: string)
    requires Stands(t, q, sign + ds) && q + |sign| + |ds| == |t| && Digits(ds) && ds != ""
    requires sign == "" || sign == "+" || sign == "-"
    ensures SignAt(t, q) == |sign| && DigitRun(t, q + |sign|) == |ds|
  {
    hide Stands, DigitRun;
    StandsParts(t, q, sign, ds);
    StandsHead(t, q + |sign|, ds);
    if sign != "" {
      StandsHead(t, q, sign);
    }
    DigitsTaken(t, q + |sign|, ds);
  }

  lemma ExponentText(n: NumberParts)
    requires n.exp != ""
    ensures n.Exponent() == [n.e] + (n.sign + n.exp)
  {
    Regroup([n.e], n.sign, n.exp);
  }

  /** ... and the exponent. */
  lemma ExponentTaken(t: string, n: NumberParts, p: nat, q: nat)
    requires n.Ok() && Laid(t, n, p, q)
    ensures n.exp == "" ==> q == |t|
    ensures n.exp != "" ==>
      && q < |t| && t[q] == n.e && SignAt(t, q + 1) == |n.sign|
      && DigitRun(t, q + 1 + |n.sign|) == |n.exp| && q + 1 + |n.sign| + |n.exp| == |t|
  {
    hide Stands, DigitRun, SignAt, Digits, NumberParts.Whole, NumberParts.Fraction;
    if n.exp != "" {
      hide NumberParts.Exponent;
      ExponentText(n);
      StandsParts(t, q, [n.e], n.sign + n.exp);
      StandsChar(t, q, n.e);
      SignedDigits(t, q + 1, n.sign, n.exp);
    }
  }

  lemma PartsAreNumberChars(n: NumberParts)
    requires n.Ok()
    ensures n.Whole() != "" && (n.Whole()[0] == '-' || IsDigit(n.Whole()[0]))
    ensures forall i :: 0 <= i < |n.Text()| ==> NumberChar(n.Text()[i])
  {
    assert forall i :: 0 <= i < |n.Whole()| ==> NumberChar(n.Whole()[i]);
    assert forall i :: 0 <= i < |n.Fraction()| ==> NumberChar(n.Fraction()[i]);
    assert forall i :: 0 <= i < |n.Exponent()| ==> NumberChar(n.Exponent()[i]);
  }

  /** A number of the RFC is taken as a whole. */
  lemma RfcNumberWhole(t: string)
    requires RfcNumber(t)
    ensures 0 < |t| && (t[0] == '-' || IsDigit(t[0])) && StrtodLength(t) == |t|
    ensures forall i :: 0 <= i < |t| ==> NumberChar(t[i])
  {
    hide DigitRun, SignAt, NumberParts.Whole, NumberParts.Fraction, NumberParts.Exponent, NumberParts.Text;
    var n: NumberParts :| n.Ok() && n.Text() == t;
    var p := |n.Whole()|;
    var q := p + |n.Fraction()|;
    NumberLayout(n);
    PartsAreNumberChars(n);
    StandsHead(t, 0, n.Whole());
    WholeTaken(t, n, p, q);
    FractionTaken(t, n, p, q);
    ExponentTaken(t, n, p, q);
  }

  lemma {:induction false} ElementsReadable(es: seq<Element>)
    requires forall i :: 0 <= i < |es| ==> Ws(es[i].before) && Rfc8259(es[i].value) && Ws(es[i].after)
    ensures ReadableElements(es)
    decreases es, 0
  {
    hide Rfc8259, Readable;
    if es != [] {
      RfcReadable(es[0].value);
      ElementsReadable(es[1..]);
    }
  }

  lemma RfcStringRead(ps: seq<Piece>)
    requires RfcString(ps)
    ensures Pieces(ps)
  {
    hide Scans, Sources, Piece.Taken, Piece.Ok;
    AllOkScans(ps);
  }

  lemma {:induction false} FieldsReadable(fs: seq<Field>)
    requires forall i :: 0 <= i < |fs| ==>
      && Ws(fs[i].before) && RfcString(fs[i].name) && Ws(fs[i].beforeColon) && Ws(fs[i].afterColon)
      && Rfc8259(fs[i].value) && Ws(fs[i].after)
    ensures ReadableFields(fs)
    decreases fs, 0
  {
    hide Rfc8259, Readable, Pieces, RfcString;
    if fs != [] {
      RfcStringRead(fs[0].name);
      RfcReadable(fs[0].value);
      FieldsReadable(fs[1..]);
    }
  }

  lemma {:induction false} RfcReadable(t: Syntax)
    requires Rfc8259(t)
    ensures Readable(t)
    decreases t, 1
  {
    hide RfcNumber, StrtodLength, ReadableElements, ReadableFields, RfcString, Pieces;
    match t
    case Numeral(text) => RfcNumberWhole(text);
    case Quoted(ps) => RfcStringRead(ps);
    case Brackets(_, es) => ElementsReadable(es);
    case Braces(_, fs) => FieldsReadable(fs);
    case _ =>
  }

  /** Every JSON text of RFC 8259 (section 2: blanks, a value, blanks), with numbers of at most 63 bytes, is accepted as
      a whole and with its value if and only if it is nested at most 1000 deep. */
  lemma RfcTextsAccepted(before: string, t: Syntax, after: string)
    requires Ws(before) && Rfc8259(t) && Ws(after)
    ensures Readable(t)
    ensures var text, next := before + (Source(t) + after), |before| + |Source(t)|;
      if Height(ValueOf(t)) <= NESTING_LIMIT
      then Parse(text) == Done(ValueOf(t), next) && Skip(text + ['\0'], next) == |text|
      else Parse(text) == Fail
  {
    hide Rfc8259, Readable, Source, ValueOf, Parse, Skip, Height;
    RfcReadable(t);
    TextParses(before, t, after);
  }
}
