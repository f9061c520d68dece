/** How much of a text strtod takes: the longest beginning that is a decimal floating-point number (section 7.20.1.3 of
    ISO C99). */
module CjsonStrtod {
  import opened CjsonText

  predicate AllDigits(t: string, i: nat, j: nat)
    requires j <= |t|
  {
    forall k :: i <= k < j ==> IsDigit(t[k])
  }

  /** An optional sign. */
  predicate SignTo(t: string, a: nat) {
    a == 0 || (a == 1 && t != [] && (t[0] == '+' || t[0] == '-'))
  }

  /** Digits with at most one point, at p, or without one if p is the end; at least one digit. */
  predicate Mantissa(t: string, a: nat, p: nat, b: nat) {
    && a <= p <= b <= |t| && AllDigits(t, a, p)
    && (p < b ==> t[p] == '.' && AllDigits(t, p + 1, b))
    && (a < p || p + 1 < b)
  }

  /** An optional exponent: e or E, an optional sign, and at least one digit. */
  predicate Exponent(t: string, b: nat, c: nat) {
    && b <= c <= |t|
    && (b < c ==> (t[b] == 'e' || t[b] == 'E') && (ExponentDigits(t, b + 1, c) || Signed(t, b + 1, c)))
  }

  predicate Signed(t: string, r: nat, c: nat)
    requires c <= |t|
  {
    r < c && (t[r] == '+' || t[r] == '-') && ExponentDigits(t, r + 1, c)
  }

  predicate ExponentDigits(t: string, r: nat, c: nat)
    requires c <= |t|
  {
    r < c && AllDigits(t, r, c)
  }

  /** The first c characters are a number. */
  predicate IsFloat(t: string, a: nat, p: nat, b: nat, c: nat) {
    SignTo(t, a) && Mantissa(t, a, p, b) && Exponent(t, b, c)
  }

  lemma {:induction false} RunIsDigits(t: string, p: nat)
    ensures var n := DigitRun(t, p); p <= |t| ==> AllDigits(t, p, p + n) && (p + n < |t| ==> !IsDigit(t[p + n]))
    decreases |t| - p
  {
    if p < |t| && IsDigit(t[p]) {
      RunIsDigits(t, p + 1);
    }
  }

  lemma RunIsLongest(t: string, p: nat, q: nat)
    requires p <= q <= |t| && AllDigits(t, p, q)
    ensures q <= p + DigitRun(t, p)
    ensures q < |t| && !IsDigit(t[q]) ==> q == p + DigitRun(t, p)
  {
    hide DigitRun;
    RunIsDigits(t, p);
  }

  /** What strtod takes is a number ... */
  lemma TakesFloat(t: string)
    requires StrtodLength(t) > 0
    ensures exists a, p, b :: IsFloat(t, a, p, b, StrtodLength(t))
  {
    hide DigitRun;
    var s := SignAt(t, 0);
    RunIsDigits(t, s);
    var p := s + DigitRun(t, s);
    var b := if p < |t| && t[p] == '.' then p + 1 + DigitRun(t, p + 1) else p;
    RunIsDigits(t, p + 1);
    if b < |t| && (t[b] == 'e' || t[b] == 'E') {
      RunIsDigits(t, b + 1 + SignAt(t, b + 1));
    }
    assert Mantissa(t, s, p, b);
    assert IsFloat(t, s, p, b, StrtodLength(t));
  }

  /** ... and no longer beginning is one. */
  lemma NoLongerFloat(t: string, a: nat, p: nat, b: nat, c: nat)
    requires IsFloat(t, a, p, b, c)
    ensures c <= StrtodLength(t)
  {
    hide DigitRun;
    var s := SignAt(t, 0);
    assert a == s;
    var d := DigitRun(t, s);
    RunIsLongest(t, s, p);
    RunIsDigits(t, s);
    var q := if s + d < |t| && t[s + d] == '.' then s + d + 1 + DigitRun(t, s + d + 1) else s + d;
    RunIsDigits(t, s + d + 1);
    if p < b {
      RunIsLongest(t, p + 1, b);
    }
    assert b <= q;
    if b < c {
      assert b == q;
      var r := q + 1 + SignAt(t, q + 1);
      RunIsLongest(t, r, c);
    }
  }

  lemma StrtodTakesLongest(t: string)
    ensures StrtodLength(t) > 0 ==> exists a, p, b :: IsFloat(t, a, p, b, StrtodLength(t))
    ensures forall a: nat, p: nat, b: nat, c: nat :: IsFloat(t, a, p, b, c) ==> c <= StrtodLength(t)
  {
    hide IsFloat, StrtodLength;
    if StrtodLength(t) > 0 {
      TakesFloat(t);
    }
    forall a: nat, p: nat, b: nat, c: nat | IsFloat(t, a, p, b, c) ensures c <= StrtodLength(t) {
      NoLongerFloat(t, a, p, b, c);
    }
  }
}
