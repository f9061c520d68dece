/** The table T of MD5 is what RFC 1321 says: the integer parts of 4294967296 times abs(sin(i)), i from 1 to 64 in
    radians. */
module Md5Sines {
  import Md5

  // ---------------------------------------------------------------- sine and cosine

  /** The power series at x. */
  function SineTerm(x: real, k: nat): real {
    if k == 0 then x else -(SineTerm(x, k - 1) * x * x) / ((2 * k) * (2 * k + 1)) as real
  }

  function CosineTerm(x: real, k: nat): real {
    if k == 0 then 1.0 else -(CosineTerm(x, k - 1) * x * x) / ((2 * k - 1) * (2 * k)) as real
  }

  function SineSum(x: real, n: nat): real {
    if n == 0 then 0.0 else SineSum(x, n - 1) + SineTerm(x, n - 1)
  }

  function CosineSum(x: real, n: nat): real {
    if n == 0 then 0.0 else CosineSum(x, n - 1) + CosineTerm(x, n - 1)
  }

  function SineSums(x: real): nat -> real {
    (n: nat) => SineSum(x, n)
  }

  function CosineSums(x: real): nat -> real {
    (n: nat) => CosineSum(x, n)
  }

  ghost predicate Within(f: nat -> real, l: real, e: real, m: nat) {
    l - e < f(m) < l + e
  }

  ghost predicate WithinFrom(f: nat -> real, l: real, e: real, n: nat) {
    forall m: nat :: m >= n ==> Within(f, l, e, m)
  }

  ghost predicate Settles(f: nat -> real, l: real, e: real) {
    exists n: nat :: WithinFrom(f, l, e, n)
  }

  ghost predicate Limit(f: nat -> real, l: real) {
    forall e: real :: e > 0.0 ==> Settles(f, l, e)
  }

  ghost predicate Adds(sin: real -> real, cos: real -> real, x: real, y: real) {
    && sin(x + y) == sin(x) * cos(y) + cos(x) * sin(y)
    && cos(x + y) == cos(x) * cos(y) - sin(x) * sin(y)
  }

  /** What is used of sine and cosine: at 1 they are the sums of their power series, and they have addition formulas. */
  ghost predicate SineAndCosine(sin: real -> real, cos: real -> real) {
    && Limit(SineSums(1.0), sin(1.0))
    && Limit(CosineSums(1.0), cos(1.0))
    && forall x, y :: Adds(sin, cos, x, y)
  }

  // ---------------------------------------------------------------- alternating series

  /** The steps of f change their sign each time and do not grow; the first is up. */
  ghost predicate Alternates(f: nat -> real) {
    forall n: nat :: Narrows(f, n)
  }

  ghost predicate Narrows(f: nat -> real, n: nat) {
    if n % 2 == 0 then f(n) <= f(n + 2) <= f(n + 1) else f(n + 1) <= f(n + 2) <= f(n)
  }

  /** From an even place on f stays between its values there and at the next. */
  lemma {:induction false} StaysBetween(f: nat -> real, n: nat, m: nat)
    requires Alternates(f) && n % 2 == 0 && n <= m
    ensures f(n) <= f(m) && (m > n ==> f(m) <= f(n + 1))
    ensures m > n ==> (if m % 2 == 0 then f(m) <= f(m - 1) else f(m - 1) <= f(m))
    decreases m
  {
    if m > n {
      assert Narrows(f, n);
      if m > n + 1 {
        StaysBetween(f, n, m - 1);
        StaysBetween(f, n, m - 2);
        assert Narrows(f, m - 2);
      }
    }
  }

  lemma LimitBetween(f: nat -> real, l: real, n: nat)
    requires Alternates(f) && Limit(f, l) && n % 2 == 0
    ensures f(n) <= l <= f(n + 1)
  {
    if l < f(n) {
      assert Settles(f, l, f(n) - l);
      var k: nat :| WithinFrom(f, l, f(n) - l, k);
      var m := if k > n then k else n;
      assert Within(f, l, f(n) - l, m);
      StaysBetween(f, n, m);
    }
    if l > f(n + 1) {
      assert Settles(f, l, l - f(n + 1));
      var k: nat :| WithinFrom(f, l, l - f(n + 1), k);
      var m := if k > n then k else n + 1;
      assert Within(f, l, l - f(n + 1), m);
      StaysBetween(f, n, m);
    }
  }

  lemma NextSine(k: nat)
    ensures SineTerm(1.0, 0) == 1.0
    ensures SineTerm(1.0, k + 1) == -SineTerm(1.0, k) / ((2 * k + 2) * (2 * k + 3)) as real
  {
    var t := SineTerm(1.0, k);
    assert t * 1.0 * 1.0 == t;
    assert 2 * (k + 1) == 2 * k + 2;
  }

  lemma NextCosine(k: nat)
    ensures CosineTerm(1.0, 0) == 1.0
    ensures CosineTerm(1.0, k + 1) == -CosineTerm(1.0, k) / ((2 * k + 1) * (2 * k + 2)) as real
  {
    var t := CosineTerm(1.0, k);
    assert t * 1.0 * 1.0 == t;
    assert 2 * (k + 1) == 2 * k + 2;
  }

  /** u has the other sign and is not larger. */
  predicate Turns(t: real, u: real) {
    u != 0.0 && (u > 0.0 <==> t < 0.0) && (t > 0.0 ==> t + u >= 0.0) && (t < 0.0 ==> t + u <= 0.0)
  }

  lemma SineTurns(n: nat)
    requires SineTerm(1.0, n) != 0.0
    ensures Turns(SineTerm(1.0, n), SineTerm(1.0, n + 1))
  {
    hide SineTerm;
    NextSine(n);
    ProductAtLeast(2 * n + 2, 2 * n + 3);
    Shrinks(SineTerm(1.0, n), (2 * n + 2) * (2 * n + 3));
  }

  /** The terms at 1 change their sign. */
  lemma {:induction false} SineTerms(k: nat)
    ensures SineTerm(1.0, k) != 0.0 && (SineTerm(1.0, k) > 0.0 <==> k % 2 == 0)
  {
    hide SineTerm;
    if k == 0 {
      NextSine(0);
    } else {
      var j := k - 1;
      SineTerms(j);
      SineTurns(j);
      assert k % 2 == 0 <==> j % 2 != 0;
    }
  }

  lemma CosineTurns(n: nat)
    requires CosineTerm(1.0, n) != 0.0
    ensures Turns(CosineTerm(1.0, n), CosineTerm(1.0, n + 1))
  {
    hide CosineTerm;
    NextCosine(n);
    ProductAtLeast(2 * n + 1, 2 * n + 2);
    Shrinks(CosineTerm(1.0, n), (2 * n + 1) * (2 * n + 2));
  }

  lemma {:induction false} CosineTerms(k: nat)
    ensures CosineTerm(1.0, k) != 0.0 && (CosineTerm(1.0, k) > 0.0 <==> k % 2 == 0)
  {
    hide CosineTerm;
    if k == 0 {
      NextCosine(0);
    } else {
      var j := k - 1;
      CosineTerms(j);
      CosineTurns(j);
      assert k % 2 == 0 <==> j % 2 != 0;
    }
  }

  lemma Shrinks(t: real, n: nat)
    requires t != 0.0 && n >= 2
    ensures Turns(t, -t / n as real)
  {
    var q := -t / n as real;
    assert q * n as real == -t;
    if t > 0.0 {
      assert q < 0.0;
      assert q * n as real <= q * 2.0;
    } else {
      assert q > 0.0;
      assert q * n as real >= q * 2.0;
    }
  }

  lemma SineAlternates()
    ensures Alternates(SineSums(1.0))
  {
    forall n: nat ensures Narrows(SineSums(1.0), n) {
      SineTerms(n);
      SineTurns(n);
      assert SineSum(1.0, n + 1) == SineSum(1.0, n) + SineTerm(1.0, n);
      assert SineSum(1.0, n + 2) == SineSum(1.0, n + 1) + SineTerm(1.0, n + 1);
    }
  }

  lemma ProductAtLeast(m: nat, n: nat)
    requires m >= 1 && n >= 2
    ensures m * n >= 2
  {
  }

  lemma CosineAlternates()
    ensures Alternates(CosineSums(1.0))
  {
    forall n: nat ensures Narrows(CosineSums(1.0), n) {
      CosineTerms(n);
      CosineTurns(n);
      assert CosineSum(1.0, n + 1) == CosineSum(1.0, n) + CosineTerm(1.0, n);
      assert CosineSum(1.0, n + 2) == CosineSum(1.0, n + 1) + CosineTerm(1.0, n + 1);
    }
  }

  // ---------------------------------------------------------------- at one radian, to forty decimals

  lemma SineSumStep(n: nat)
    ensures SineSum(1.0, 0) == 0.0 && SineSum(1.0, n + 1) == SineSum(1.0, n) + SineTerm(1.0, n)
  {
  }

  lemma CosineSumStep(n: nat)
    ensures CosineSum(1.0, 0) == 0.0 && CosineSum(1.0, n + 1) == CosineSum(1.0, n) + CosineTerm(1.0, n)
  {
  }

  const UNIT: int := 1_0000_0000_0000_0000_0000_0000_0000_0000_0000_0000
  const SINE1: int := 8414709848078965066525023216302989996226
  const COSINE1: int := 5403023058681397174009366074429766037323

  lemma SineTo7()
    ensures SineTerm(1.0, 7) == -1.0 / 1307674368000.0
    ensures SineSum(1.0, 7) == 209594293.0 / 249080832.0
  {
    hide SineTerm, SineSum;
    NextSine(0);
    SineSumStep(0);
    assert SineTerm(1.0, 1) == -1.0 / 6.0;
    assert SineSum(1.0, 1) == 1.0;
    NextSine(1);
    SineSumStep(1);
    assert SineTerm(1.0, 2) == 1.0 / 120.0;
    assert SineSum(1.0, 2) == 5.0 / 6.0;
    NextSine(2);
    SineSumStep(2);
    assert SineTerm(1.0, 3) == -1.0 / 5040.0;
    assert SineSum(1.0, 3) == 101.0 / 120.0;
    NextSine(3);
    SineSumStep(3);
    assert SineTerm(1.0, 4) == 1.0 / 362880.0;
    assert SineSum(1.0, 4) == 4241.0 / 5040.0;
    NextSine(4);
    SineSumStep(4);
    assert SineTerm(1.0, 5) == -1.0 / 39916800.0;
    assert SineSum(1.0, 5) == 305353.0 / 362880.0;
    NextSine(5);
    SineSumStep(5);
    assert SineTerm(1.0, 6) == 1.0 / 6227020800.0;
    assert SineSum(1.0, 6) == 33588829.0 / 39916800.0;
    NextSine(6);
    SineSumStep(6);
  }

  lemma SineTo14()
    ensures SineTerm(1.0, 14) == 1.0 / 8841761993739701954543616000000.0
    ensures SineSum(1.0, 14) == 9162667699888149594768114701.0 / 10888869450418352160768000000.0
  {
    hide SineTerm, SineSum;
    SineTo7();
    NextSine(7);
    SineSumStep(7);
    assert SineTerm(1.0, 8) == 1.0 / 355687428096000.0;
    assert SineSum(1.0, 8) == 1100370038249.0 / 1307674368000.0;
    NextSine(8);
    SineSumStep(8);
    assert SineTerm(1.0, 9) == -1.0 / 121645100408832000.0;
    assert SineSum(1.0, 9) == 23023126954133.0 / 27360571392000.0;
    NextSine(9);
    SineSumStep(9);
    assert SineTerm(1.0, 10) == 1.0 / 51090942171709440000.0;
    assert SineSum(1.0, 10) == 102360822438075317.0 / 121645100408832000.0;
    NextSine(10);
    SineSumStep(10);
    assert SineTerm(1.0, 11) == -1.0 / 25852016738884976640000.0;
    assert SineSum(1.0, 11) == 42991545423991633141.0 / 51090942171709440000.0;
    NextSine(11);
    SineSumStep(11);
    assert SineTerm(1.0, 12) == 1.0 / 15511210043330985984000000.0;
    assert SineSum(1.0, 12) == 4350744396907953273869.0 / 5170403347776995328000.0;
    NextSine(12);
    SineSumStep(12);
    assert SineTerm(1.0, 13) == -1.0 / 10888869450418352160768000000.0;
    assert SineSum(1.0, 13) == 13052233190723859821607001.0 / 15511210043330985984000000.0;
    NextSine(13);
    SineSumStep(13);
  }

  lemma SineTo19()
    ensures SineTerm(1.0, 19) == -1.0 / 20397882081197443358640281739902897356800000000.0
    ensures SineSum(1.0, 19)
         == 11581798868326962373676377177877272977582469.0 / 13763753091226345046315979581580902400000000.0
    ensures SineSum(1.0, 18) == 8695044195440662442699982866274228962149.0 / 10333147966386144929666651337523200000000.0
  {
    hide SineTerm, SineSum;
    SineTo14();
    NextSine(14);
    SineSumStep(14);
    assert SineTerm(1.0, 15) == -1.0 / 8222838654177922817725562880000000.0;
    assert SineSum(1.0, 15) == 7440086172309177470951709137213.0 / 8841761993739701954543616000000.0;
    NextSine(15);
    SineSumStep(15);
    assert SineTerm(1.0, 16) == 1.0 / 8683317618811886495518194401280000000.0;
    assert SineSum(1.0, 16) == 364172638960396581472899447242531.0 / 432780981798838043038187520000000.0;
    NextSine(16);
    SineSumStep(16);
    assert SineTerm(1.0, 17) == -1.0 / 10333147966386144929666651337523200000000.0;
    assert SineSum(1.0, 17) == 1461351965620279402134450901894828397.0 / 1736663523762377299103638880256000000.0;
    NextSine(17);
    SineSumStep(17);
    assert SineTerm(1.0, 18) == 1.0 / 13763753091226345046315979581580902400000000.0;
    assert SineSum(1.0, 18) == 8695044195440662442699982866274228962149.0 / 10333147966386144929666651337523200000000.0;
    NextSine(18);
    SineSumStep(18);
  }

  lemma CosineTo7()
    ensures CosineTerm(1.0, 7) == -1.0 / 87178291200.0
    ensures CosineSum(1.0, 7) == 258805669.0 / 479001600.0
  {
    hide CosineTerm, CosineSum;
    NextCosine(0);
    CosineSumStep(0);
    assert CosineTerm(1.0, 1) == -1.0 / 2.0;
    assert CosineSum(1.0, 1) == 1.0;
    NextCosine(1);
    CosineSumStep(1);
    assert CosineTerm(1.0, 2) == 1.0 / 24.0;
    assert CosineSum(1.0, 2) == 1.0 / 2.0;
    NextCosine(2);
    CosineSumStep(2);
    assert CosineTerm(1.0, 3) == -1.0 / 720.0;
    assert CosineSum(1.0, 3) == 13.0 / 24.0;
    NextCosine(3);
    CosineSumStep(3);
    assert CosineTerm(1.0, 4) == 1.0 / 40320.0;
    assert CosineSum(1.0, 4) == 389.0 / 720.0;
    NextCosine(4);
    CosineSumStep(4);
    assert CosineTerm(1.0, 5) == -1.0 / 3628800.0;
    assert CosineSum(1.0, 5) == 4357.0 / 8064.0;
    NextCosine(5);
    CosineSumStep(5);
    assert CosineTerm(1.0, 6) == 1.0 / 479001600.0;
    assert CosineSum(1.0, 6) == 1960649.0 / 3628800.0;
    NextCosine(6);
    CosineSumStep(6);
  }

  lemma CosineTo14()
    ensures CosineTerm(1.0, 14) == 1.0 / 304888344611713860501504000000.0
    ensures CosineSum(1.0, 14) == 217899306383636256824687449.0 / 403291461126605635584000000.0
  {
    hide CosineTerm, CosineSum;
    CosineTo7();
    NextCosine(7);
    CosineSumStep(7);
    assert CosineTerm(1.0, 8) == 1.0 / 20922789888000.0;
    assert CosineSum(1.0, 8) == 47102631757.0 / 87178291200.0;
    NextCosine(8);
    CosineSumStep(8);
    assert CosineTerm(1.0, 9) == -1.0 / 6402373705728000.0;
    assert CosineSum(1.0, 9) == 11304631621681.0 / 20922789888000.0;
    NextCosine(9);
    CosineSumStep(9);
    assert CosineTerm(1.0, 10) == 1.0 / 2432902008176640000.0;
    assert CosineSum(1.0, 10) == 691843455246877.0 / 1280474741145600.0;
    NextCosine(10);
    CosineSumStep(10);
    assert CosineTerm(1.0, 11) == -1.0 / 1124000727777607680000.0;
    assert CosineSum(1.0, 11) == 1314502564969066301.0 / 2432902008176640000.0;
    NextCosine(11);
    CosineSumStep(11);
    assert CosineTerm(1.0, 12) == 1.0 / 620448401733239439360000.0;
    assert CosineSum(1.0, 12) == 607300185015708631061.0 / 1124000727777607680000.0;
    NextCosine(12);
    CosineSumStep(12);
    assert CosineTerm(1.0, 13) == -1.0 / 403291461126605635584000000.0;
    assert CosineSum(1.0, 13) == 335229702128671164345673.0 / 620448401733239439360000.0;
    NextCosine(13);
    CosineSumStep(13);
  }

  lemma CosineTo19()
    ensures CosineTerm(1.0, 19) == -1.0 / 523022617466601111760007224100074291200000000.0
    ensures CosineSum(1.0, 19)
         == 200988852232144060114685469399818280218221.0 / 371993326789901217467999448150835200000000.0
    ensures CosineSum(1.0, 18) == 159514962089003222313242436031601809697.0 / 295232799039604140847618609643520000000.0
  {
    hide CosineTerm, CosineSum;
    CosineTo14();
    NextCosine(14);
    CosineSumStep(14);
    assert CosineTerm(1.0, 15) == -1.0 / 265252859812191058636308480000000.0;
    assert CosineSum(1.0, 15) == 32946375125205802031892742289.0 / 60977668922342772100300800000.0;
    NextCosine(15);
    CosineSumStep(15);
    assert CosineTerm(1.0, 16) == 1.0 / 263130836933693530167218012160000000.0;
    assert CosineSum(1.0, 16) == 848027998784883070051677094421.0 / 1569543549184562477137920000000.0;
    NextCosine(16);
    CosineSumStep(16);
    assert CosineTerm(1.0, 17) == -1.0 / 295232799039604140847618609643520000000.0;
    assert CosineSum(1.0, 17) == 142170197940288076928023561525491809.0 / 263130836933693530167218012160000000.0;
    NextCosine(17);
    CosineSumStep(17);
    assert CosineTerm(1.0, 18) == 1.0 / 371993326789901217467999448150835200000000.0;
    assert CosineSum(1.0, 18) == 159514962089003222313242436031601809697.0 / 295232799039604140847618609643520000000.0;
    NextCosine(18);
    CosineSumStep(18);
  }

  lemma AtOne(sin: real -> real, cos: real -> real)
    requires SineAndCosine(sin, cos)
    ensures Near(sin(1.0), SINE1, 1) && Near(cos(1.0), COSINE1, 1)
  {
    SineAlternates();
    CosineAlternates();
    LimitBetween(SineSums(1.0), sin(1.0), 18);
    LimitBetween(CosineSums(1.0), cos(1.0), 18);
    SineTo19();
    CosineTo19();
  }

  /** x is a / UNIT, up to e / UNIT. */
  ghost predicate Near(x: real, a: int, e: int) {
    (a - e) as real <= Scaled(x) <= (a + e) as real
  }

  ghost function Scaled(x: real): real {
    x * UNIT as real
  }

  // ---------------------------------------------------------------- one radian further

  lemma ProductBound(x: real, p: real, y: real, q: real)
    requires -p <= x <= p && -q <= y <= q
    ensures -(p * q) <= x * y <= p * q
  {
    assert (p - x) * (q - y) >= 0.0;
    assert (p - x) * (q + y) >= 0.0;
    assert (p + x) * (q - y) >= 0.0;
    assert (p + x) * (q + y) >= 0.0;
  }

  lemma ProductParts(a: real, f: real, b: real, g: real)
    ensures (a + f) * (b + g) == a * b + a * g + f * b + f * g
  {
  }

  /** A product of two approximate values. */
  lemma ProductNear(a: real, f: real, e: real, b: real, g: real, unit: real)
    requires -e <= f <= e && -1.0 <= g <= 1.0 && -unit <= a <= unit && 0.0 <= b
    ensures a * b - (unit + e * b + e) <= (a + f) * (b + g) <= a * b + (unit + e * b + e)
  {
    ProductParts(a, f, b, g);
    ProductBound(a, unit, g, 1.0);
    ProductBound(f, e, b, b);
    ProductBound(f, e, g, 1.0);
    var ag, fb, fg, ab, eb := a * g, f * b, f * g, a * b, e * b;
    assert -unit <= ag <= unit && -eb <= fb <= eb && -e <= fg <= e;
  }

  lemma ApproximateProduct(x: real, a: real, e: real, y: real, b: real, unit: real)
    requires a - e <= x <= a + e && b - 1.0 <= y <= b + 1.0 && -unit <= a <= unit && 0.0 <= b
    ensures a * b - (unit + e * b + e) <= x * y <= a * b + (unit + e * b + e)
  {
    ProductNear(a, x - a, e, b, y - b, unit);
    assert a + (x - a) == x && b + (y - b) == y;
  }

  lemma ScaledDown(x: real, a: real, e: real, unit: real)
    requires unit > 0.0 && a * unit - e * unit <= x * unit <= a * unit + e * unit
    ensures a - e <= x <= a + e
  {
    if x > a + e {
      Positive(x - a - e, unit);
    }
    if x < a - e {
      Positive(a - e - x, unit);
    }
  }

  lemma Positive(x: real, unit: real)
    requires x > 0.0 && unit > 0.0
    ensures x * unit > 0.0
  {
  }

  lemma ScaledProducts(s: real, c: real, s1: real, c1: real, u: real)
    ensures (s * u) * (c1 * u) + (c * u) * (s1 * u) == (s * c1 + c * s1) * u * u
  {
    assert (s * u) * (c1 * u) == (s * c1) * u * u;
    assert (c * u) * (s1 * u) == (c * s1) * u * u;
  }

  lemma WholeSum(a: int, b: int, p: int, q: int)
    ensures (a * p + b * q) as real == a as real * p as real + b as real * q as real
  {
  }

  /** Twice the error is room enough for the products and for rounding. */
  lemma ErrorFits(e: int, x: real, y: real, m: real, n: int)
    requires 8 <= e <= UNIT / 8
    requires var u, f := UNIT as real, e as real;
      && m - (2.0 * u + f * COSINE1 as real + f * SINE1 as real + 2.0 * f) <= x + y
      && x + y <= m + (2.0 * u + f * COSINE1 as real + f * SINE1 as real + 2.0 * f)
      && n as real * u - u <= m <= n as real * u + u
    ensures var u, f := UNIT as real, e as real;
      n as real * u - (2.0 * f) * u <= x + y <= n as real * u + (2.0 * f) * u
  {
  }

  lemma SumOfProducts(x: real, y: real, g: real, h: real, a: int, b: int, n: int, e: int)
    requires (a - e) as real <= x <= (a + e) as real && (b - e) as real <= y <= (b + e) as real
    requires (COSINE1 - 1) as real <= g <= (COSINE1 + 1) as real && (SINE1 - 1) as real <= h <= (SINE1 + 1) as real
    requires -UNIT <= a <= UNIT && -UNIT <= b <= UNIT && 8 <= e <= UNIT / 8
    requires -UNIT <= a * COSINE1 + b * SINE1 - n * UNIT <= UNIT
    ensures var u, f := UNIT as real, e as real;
      n as real * u - (2.0 * f) * u <= x * g + y * h <= n as real * u + (2.0 * f) * u
  {
    var u, f := UNIT as real, e as real;
    var p, q := a as real, b as real;
    ApproximateProduct(x, p, f, g, COSINE1 as real, u);
    ApproximateProduct(y, q, f, h, SINE1 as real, u);
    WholeSum(a, b, COSINE1, SINE1);
    ErrorFits(e, x * g, y * h, p * COSINE1 as real + q * SINE1 as real, n);
  }

  lemma ScaledSum(s: real, c: real, s1: real, c1: real, n: real, f: real)
    requires var u := UNIT as real; n * u - f * u <= Scaled(s) * Scaled(c1) + Scaled(c) * Scaled(s1) <= n * u + f * u
    ensures n - f <= Scaled(s * c1 + c * s1) <= n + f
  {
    SumScales(s, c, s1, c1, n, f, UNIT as real);
  }

  lemma SumScales(s: real, c: real, s1: real, c1: real, n: real, f: real, u: real)
    requires u > 0.0
    requires n * u - f * u <= (s * u) * (c1 * u) + (c * u) * (s1 * u) <= n * u + f * u
    ensures n - f <= (s * c1 + c * s1) * u <= n + f
  {
    ScaledProducts(s, c, s1, c1, u);
    ScaledDown((s * c1 + c * s1) * u, n, f, u);
  }

  /** The sum of two such products, against an approximate value of it. */
  lemma SumNear(s: real, c: real, s1: real, c1: real, a: int, b: int, n: int, e: int)
    returns (y: real)
    requires Near(s, a, e) && Near(c, b, e) && Near(s1, SINE1, 1) && Near(c1, COSINE1, 1)
    requires -UNIT <= a <= UNIT && -UNIT <= b <= UNIT && 8 <= e <= UNIT / 8
    requires -UNIT <= a * COSINE1 + b * SINE1 - n * UNIT <= UNIT
    ensures y == s * c1 + c * s1 && Near(y, n, 2 * e)
  {
    hide Scaled;
    SumOfProducts(Scaled(s), Scaled(c), Scaled(c1), Scaled(s1), a, b, n, e);
    ScaledSum(s, c, s1, c1, n as real, 2.0 * e as real);
    y := s * c1 + c * s1;
  }

  lemma Negated(x: real, y: real)
    ensures -x * y == -(x * y)
  {
  }

  /** The same for the difference. */
  lemma DifferenceNear(s: real, c: real, s1: real, c1: real, a: int, b: int, n: int, e: int)
    returns (y: real)
    requires Near(s, a, e) && Near(c, b, e) && Near(s1, SINE1, 1) && Near(c1, COSINE1, 1)
    requires -UNIT <= a <= UNIT && -UNIT <= b <= UNIT && 8 <= e <= UNIT / 8
    requires -UNIT <= b * COSINE1 - a * SINE1 - n * UNIT <= UNIT
    ensures y == c * c1 - s * s1 && Near(y, n, 2 * e)
  {
    hide Near;
    NearMinus(s, a, e);
    y := SumNear(c, -s, s1, c1, b, -a, n, e);
    Negated(s, s1);
  }

  // ---------------------------------------------------------------- sixty-four radians

  /** Sine and cosine of t + 1, to about thirty decimals, by fours. */
  function Angle(t: nat): (int, int)
    requires t < Md5.STEPS
  {
    AngleRow(t / 4)[t % 4]
  }

  function AngleRow(k: nat): (r: seq<(int, int)>)
    ensures |r| == 4
  {
    if k == 0 then [
      (8414709848078965066525023216302989996226, 5403023058681397174009366074429766037323),
      (9092974268256816953960198659117448427023, -4161468365471423869975682295007621897661),
      (1411200080598672221007448028081102798468, -9899924966004454572715727947312613023938),
      (-7568024953079282513726390945118290941361, -6536436208636119146391681830977503814241)]
    else if k == 1 then [
      (-9589242746631384688931544061559939733526, 2836621854632262644666391715135573083346),
      (-2794154981989258728115554466118947596279, 9601702866503660205456522979229244054522),
      (6569865987187890903969990915936351779372, 7539022543433046381411975217191820122184),
      (9893582466233817778081235982452886721167, -1455000338086135258688413818311946826096)]
    else if k == 2 then [
      (4121184852417565697562725663524351793438, -9111302618846769883682947111811653112468),
      (-5440211108893698134047476618513772816841, -8390715290764524522588639478240648345201),
      (-9999902065507034570515648990255221068434, 44256979880507857483550247239415732260),
      (-5365729180004349716653742282424017923157, 8438539587324921046539552931736217831686)]
    else if k == 3 then [
      (4201670368266409218689550354768827883155, 9074467814501962138526861554744758499144),
      (9906073556948703078753548040145856037587, 1367372182078335942489288766717382405513),
      (6502878401571168658297402709888703252145, -7596879128588212738481464036332805441190),
      (-2879033166650652947844562482186175296213, -9576594803233846418996372326511034717807)]
    else if k == 4 then [
      (-9613974918795568572616369448691560984927, -2751633380515969222203426565518628985966),
      (-7509872467716761037501560844471145313776, 6603167082440801448161000447904507846885),
      (1498772096629523297542393212382539494491, 9887046181866692528983528565481572681738),
      (9129452507276276543760999838456823012987, 4080820618133919860622678609276449570989)]
    else if k == 5 then [
      (8366556385360560318664807702450237759402, -5477292602242684213842711329509820090838),
      (-88513092904038759216902568157723324641, -9999608263946371264541747392126937741366),
      (-8462204041751706352413262719055959277383, -5328330203333975552157576571641258033406),
      (-9055783620066238451357933585277933222211, 4241790073369969759370509447592064790168)]
    else if k == 6 then [
      (-1323517500977730289020050938836063014849, 9912028118634735980832947188159241967960),
      (7625584504796027375158232932045629730973, 6469193223286403427213839018889016024099),
      (9563759284045030134323405583291929504750, -2921388087338361933714048358376299120712),
      (2709057883078690199863430927787925334421, -9626058663135666019754530578993088505719)]
    else if k == 7 then [
      (-6636338842129675021511733400611051511246, -7480575296890003517651917922551408026474),
      (-9880316240928617899877489072944581504875, 1542514498875840507186621466142101967607),
      (-4040376453230650060487708996642371978724, 9147423578045312789624358261503547661655),
      (5514266812416905506615581668457128157268, 8342233605065102722155264708702923065087)]
    else if k == 8 then [
      (9999118601072671457280843767078283143519, -132767472230594789152200313710070389619),
      (5290826861200238208324871340321047538904, -8485702747846051865999720877123831592656),
      (-4281826694961510044067528917459406656560, -9036922050915067598473045720837705533005),
      (-9917788534431157368352889688408157785971, -1279636896274046810283279779143712129394)]
    else if k == 9 then [
      (-6435381333569994606856700190807955412757, 7654140519453433564910812929025117005682),
      (2963685787093853173922966498490173212771, 9550736440472948575865362354058769544036),
      (9637953862840877532606649717658821150987, 2666429323599372515268257949756327520512),
      (7451131604793487869877094026363443422395, -6669380616522618443840927819336999878610)]
    else if k == 10 then [
      (-1586226688047089871033170119296870318618, -9873392775238264582288251334148276377370),
      (-9165215479156337858989891580696715017498, -3999853149883512939547073371772020283797),
      (-8317747426285982882095782562917522404921, 5551133015206256770448794419625919645418),
      (177019251054135778079540531666166986820, 9998433086476912200690090166378560318329)]
    else if k == 11 then [
      (8509035245341184248623796776180411190825, 5253219888177296960474644048235629188967),
      (9017883476488091850332930392227385691208, -4321779448847782949527765241327684986083),
      (1235731227452240040615293480864105483610, -9923354691509287182797524203448621581227),
      (-7682546613236667990449656648458934948001, -6401443394691997313129414193930771795171)]
    else if k == 12 then [
      (-9537526527594718183604235585877105952837, 3005925437436370836870260004905613779629),
      (-2623748537039287859143936469126225458854, 9649660284921132740689570589010169919222),
      (6702291758433747344943450749506668081101, 7421541968137825394673771757369559491622),
      (9866275920404852965875689344367401112694, -1629907807957054810033298154252116862173)]
    else if k == 13 then [
      (3959251501818341815033861392635392730550, -9182827862121188911997263232164720880390),
      (-5587890488516162458178713189653937966695, -8293098328631501477278500424881687223237),
      (-9997551733586198365986316832438921992343, 221267562619557345635642621466265008998),
      (-5215510020869118801874100215106005378172, 8532201077225841139696812339149137507281)]
    else if k == 14 then [
      (4361647552478249590805347931292434882703, 8998668269691937865030004046578351068359),
      (9928726480845371181650881644253998184285, 1191801354488192854358436107669639224560),
      (6367380071391378807712334923768293831250, -7710802229758452293874352963762891925268),
      (-3048106211022167056256494654784258408316, -9524129804151562926938165959929332969109)]
    else [
      (-9661177700083929470182879894805181517734, -2581016359382674457012073471527540356925),
      (-7391806966492228672760169337554366337156, 6735071623235862528878334059539364914272),
      (1673557003028069215278383702887180290250, 9858965815825496974386357560539771548723),
      (9200260381967906833515366037772518665363, 3918572304295500051617098585131229420973)]
  }

  ghost predicate At(sin: real -> real, cos: real -> real, t: nat, e: int)
    requires t < Md5.STEPS
  {
    Near(sin((t + 1) as real), Angle(t).0, e) && Near(cos((t + 1) as real), Angle(t).1, e)
  }

  lemma NearMinus(x: real, a: int, e: int)
    requires Near(x, a, e)
    ensures Near(-x, -a, e)
  {
  }

  predicate Rotated(a: int, b: int, m: int, n: int) {
    && -UNIT <= a <= UNIT && -UNIT <= b <= UNIT
    && -UNIT <= a * COSINE1 + b * SINE1 - m * UNIT <= UNIT
    && -UNIT <= b * COSINE1 - a * SINE1 - n * UNIT <= UNIT
  }

  lemma OneFurther(sin: real -> real, cos: real -> real, t: nat, e: int)
    requires SineAndCosine(sin, cos) && t + 1 < Md5.STEPS && At(sin, cos, t, e) && 8 <= e <= UNIT / 8
    requires Rotated(Angle(t).0, Angle(t).1, Angle(t + 1).0, Angle(t + 1).1)
    ensures At(sin, cos, t + 1, 2 * e)
  {
    hide Near, Limit, Angle;
    var x := (t + 1) as real;
    AtOne(sin, cos);
    assert Adds(sin, cos, x, 1.0);
    var (a, b) := Angle(t);
    var (m, n) := Angle(t + 1);
    var y := SumNear(sin(x), cos(x), sin(1.0), cos(1.0), a, b, m, e);
    var z := DifferenceNear(sin(x), cos(x), sin(1.0), cos(1.0), a, b, n, e);
    assert (t + 1 + 1) as real == x + 1.0 && sin(x + 1.0) == y && cos(x + 1.0) == z;
  }

  /** The integer part of 4294967296 times the absolute value of x. */
  ghost predicate IsPart(n: nat, x: real) {
    n as real <= 4294967296.0 * (if x < 0.0 then -x else x) < (n + 1) as real
  }

  predicate PartOf(n: nat, a: int, e: int) {
    var m := if a < 0 then -a else a;
    n * UNIT <= 0x1_0000_0000 * (m - e) && 0x1_0000_0000 * (m + e) < (n + 1) * UNIT && e < m
  }

  lemma NearPart(x: real, a: int, e: int, n: nat)
    requires Near(x, a, e) && PartOf(n, a, e)
    ensures IsPart(n, x)
  {
  }

  // ---------------------------------------------------------------- the table

  const ERROR: int := 0x4_0000_0000_0000_0000

  /** The angle is followed by the next. */
  predicate Follows(t: nat)
    requires t < Md5.STEPS
  {
    t + 1 < Md5.STEPS ==> Rotated(Angle(t).0, Angle(t).1, Angle(t + 1).0, Angle(t + 1).1)
  }

  /** Its sine has the integer part of the table. */
  predicate Fits(t: nat)
    requires t < Md5.STEPS
  {
    PartOf(Md5.T(t).bits as nat, Angle(t).0, ERROR)
  }

  lemma Angles0()
    ensures Follows(0) && Follows(1)
  {
  }

  lemma Angles1()
    ensures Follows(2) && Follows(3)
  {
  }

  lemma Angles2()
    ensures Follows(4) && Follows(5)
  {
  }

  lemma Angles3()
    ensures Follows(6) && Follows(7)
  {
  }

  lemma Angles4()
    ensures Follows(8) && Follows(9)
  {
  }

  lemma Angles5()
    ensures Follows(10) && Follows(11)
  {
  }

  lemma Angles6()
    ensures Follows(12) && Follows(13)
  {
  }

  lemma Angles7()
    ensures Follows(14) && Follows(15)
  {
  }

  lemma Angles8()
    ensures Follows(16) && Follows(17)
  {
  }

  lemma Angles9()
    ensures Follows(18) && Follows(19)
  {
  }

  lemma Angles10()
    ensures Follows(20) && Follows(21)
  {
  }

  lemma Angles11()
    ensures Follows(22) && Follows(23)
  {
  }

  lemma Angles12()
    ensures Follows(24) && Follows(25)
  {
  }

  lemma Angles13()
    ensures Follows(26) && Follows(27)
  {
  }

  lemma Angles14()
    ensures Follows(28) && Follows(29)
  {
  }

  lemma Angles15()
    ensures Follows(30) && Follows(31)
  {
  }

  lemma Angles16()
    ensures Follows(32) && Follows(33)
  {
  }

  lemma Angles17()
    ensures Follows(34) && Follows(35)
  {
  }

  lemma Angles18()
    ensures Follows(36) && Follows(37)
  {
  }

  lemma Angles19()
    ensures Follows(38) && Follows(39)
  {
  }

  lemma Angles20()
    ensures Follows(40) && Follows(41)
  {
  }

  lemma Angles21()
    ensures Follows(42) && Follows(43)
  {
  }

  lemma Angles22()
    ensures Follows(44) && Follows(45)
  {
  }

  lemma Angles23()
    ensures Follows(46) && Follows(47)
  {
  }

  lemma Angles24()
    ensures Follows(48) && Follows(49)
  {
  }

  lemma Angles25()
    ensures Follows(50) && Follows(51)
  {
  }

  lemma Angles26()
    ensures Follows(52) && Follows(53)
  {
  }

  lemma Angles27()
    ensures Follows(54) && Follows(55)
  {
  }

  lemma Angles28()
    ensures Follows(56) && Follows(57)
  {
  }

  lemma Angles29()
    ensures Follows(58) && Follows(59)
  {
  }

  lemma Angles30()
    ensures Follows(60) && Follows(61)
  {
  }

  lemma Angles31()
    ensures Follows(62) && Follows(63)
  {
  }

  lemma Parts0()
    ensures Fits(0) && Fits(1) && Fits(2) && Fits(3)
  {
  }

  lemma Parts1()
    ensures Fits(4) && Fits(5) && Fits(6) && Fits(7)
  {
  }

  lemma Parts2()
    ensures Fits(8) && Fits(9) && Fits(10) && Fits(11)
  {
  }

  lemma Parts3()
    ensures Fits(12) && Fits(13) && Fits(14) && Fits(15)
  {
  }

  lemma Parts4()
    ensures Fits(16) && Fits(17) && Fits(18) && Fits(19)
  {
  }

  lemma Parts5()
    ensures Fits(20) && Fits(21) && Fits(22) && Fits(23)
  {
  }

  lemma Parts6()
    ensures Fits(24) && Fits(25) && Fits(26) && Fits(27)
  {
  }

  lemma Parts7()
    ensures Fits(28) && Fits(29) && Fits(30) && Fits(31)
  {
  }

  lemma Parts8()
    ensures Fits(32) && Fits(33) && Fits(34) && Fits(35)
  {
  }

  lemma Parts9()
    ensures Fits(36) && Fits(37) && Fits(38) && Fits(39)
  {
  }

  lemma Parts10()
    ensures Fits(40) && Fits(41) && Fits(42) && Fits(43)
  {
  }

  lemma Parts11()
    ensures Fits(44) && Fits(45) && Fits(46) && Fits(47)
  {
  }

  lemma Parts12()
    ensures Fits(48) && Fits(49) && Fits(50) && Fits(51)
  {
  }

  lemma Parts13()
    ensures Fits(52) && Fits(53) && Fits(54) && Fits(55)
  {
  }

  lemma Parts14()
    ensures Fits(56) && Fits(57) && Fits(58) && Fits(59)
  {
  }

  lemma Parts15()
    ensures Fits(60) && Fits(61) && Fits(62) && Fits(63)
  {
  }

  lemma TableFits(t: nat)
    requires t < Md5.STEPS
    ensures Follows(t) && Fits(t)
  {
    hide Follows, Fits;
    if t < 4 {
      Angles0();
      Angles1();
      Parts0();
    } else if t < 8 {
      Angles2();
      Angles3();
      Parts1();
    } else if t < 12 {
      Angles4();
      Angles5();
      Parts2();
    } else if t < 16 {
      Angles6();
      Angles7();
      Parts3();
    } else if t < 20 {
      Angles8();
      Angles9();
      Parts4();
    } else if t < 24 {
      Angles10();
      Angles11();
      Parts5();
    } else if t < 28 {
      Angles12();
      Angles13();
      Parts6();
    } else if t < 32 {
      Angles14();
      Angles15();
      Parts7();
    } else if t < 36 {
      Angles16();
      Angles17();
      Parts8();
    } else if t < 40 {
      Angles18();
      Angles19();
      Parts9();
    } else if t < 44 {
      Angles20();
      Angles21();
      Parts10();
    } else if t < 48 {
      Angles22();
      Angles23();
      Parts11();
    } else if t < 52 {
      Angles24();
      Angles25();
      Parts12();
    } else if t < 56 {
      Angles26();
      Angles27();
      Parts13();
    } else if t < 60 {
      Angles28();
      Angles29();
      Parts14();
    } else if t < 64 {
      Angles30();
      Angles31();
      Parts15();
    }
  }

  /** The error doubles with every radian. */
  function Error(t: nat): int {
    if t == 0 then 8 else 2 * Error(t - 1)
  }

  lemma {:induction false} ErrorGrows(t: nat, n: nat)
    requires t <= n
    ensures 8 <= Error(t) <= Error(n)
    decreases n
  {
    if t < n {
      ErrorGrows(t, n - 1);
    } else if t > 0 {
      ErrorGrows(t - 1, n - 1);
    }
  }

  lemma LastError()
    ensures Error(63) == ERROR
  {
    assert Error(4) == 0x80;
    assert Error(8) == 0x800;
    assert Error(12) == 0x8000;
    assert Error(16) == 0x80000;
    assert Error(20) == 0x800000;
    assert Error(24) == 0x8000000;
    assert Error(28) == 0x80000000;
    assert Error(32) == 0x800000000;
    assert Error(36) == 0x8000000000;
    assert Error(40) == 0x80000000000;
    assert Error(44) == 0x800000000000;
    assert Error(48) == 0x8000000000000;
    assert Error(52) == 0x80000000000000;
    assert Error(56) == 0x800000000000000;
    assert Error(60) == 0x8000000000000000;
  }

  lemma {:induction false} AngleNear(sin: real -> real, cos: real -> real, t: nat)
    requires SineAndCosine(sin, cos) && t < Md5.STEPS
    ensures At(sin, cos, t, Error(t))
  {
    hide SineAndCosine, Fits, Near, Angle, Rotated;
    if t == 0 {
      AtOne(sin, cos);
      FirstAngle(sin(1.0), cos(1.0));
    } else {
      AngleNear(sin, cos, t - 1);
      TableFits(t - 1);
      ErrorGrows(t - 1, 63);
      LastError();
      OneFurther(sin, cos, t - 1, Error(t - 1));
    }
  }

  lemma FirstAngle(s: real, c: real)
    requires Near(s, SINE1, 1) && Near(c, COSINE1, 1)
    ensures Near(s, Angle(0).0, 8) && Near(c, Angle(0).1, 8)
  {
  }

  /** RFC 1321 section 3.4: T[i] is the integer part of 4294967296 times abs(sin(i)), where i is in radians. */
  lemma TableIsSines(sin: real -> real, cos: real -> real, t: nat)
    requires SineAndCosine(sin, cos) && t < Md5.STEPS
    ensures IsPart(Md5.T(t).bits as nat, sin((t + 1) as real))
  {
    hide SineAndCosine, Near, Angle, IsPart, Md5.T, PartOf, Error;
    AngleNear(sin, cos, t);
    TableFits(t);
    ErrorGrows(t, 63);
    LastError();
    NearWider(sin((t + 1) as real), Angle(t).0, Error(t), ERROR);
    NearPart(sin((t + 1) as real), Angle(t).0, ERROR, Md5.T(t).bits as nat);
  }

  lemma NearWider(x: real, a: int, e: int, f: int)
    requires Near(x, a, e) && e <= f
    ensures Near(x, a, f)
  {
  }
}
