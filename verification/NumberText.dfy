/**
 How the language prints a number (section 6.1.6.1.20 of ECMA-262), over UTF-16 code
 units. A number other than zero is what that section takes it apart into: a sign, the
 fewest digits that tell it from every other number, and where the point falls. The two
 zeros compare equal and print alike.
 */
module NumberText {
  import opened Decimals

  type Unit = x: int | 0 <= x < 0x10000

  type Text = seq<Unit>

  datatype Number = Zero | Nonzero(negative: bool, digits: seq<int>, point: int)

  const PLUS: Unit := 43
  const MINUS: Unit := 45
  const POINT: Unit := 46
  const ZERO: Unit := 48
  const LETTER_E: Unit := 101

  predicate IsDigitUnit(c: Unit) { 48 <= c <= 57 }

  /** Digits, sign, point, exponent. */
  predicate IsNumberUnit(c: Unit) { IsDigitUnit(c) || c == PLUS || c == MINUS || c == POINT || c == LETTER_E }

  predicate AreDigits(ds: seq<int>) { forall i :: 0 <= i < |ds| ==> 0 <= ds[i] <= 9 }

  /** No digit too many at either end. */
  predicate Trimmed(ds: seq<int>) { ds != [] && AreDigits(ds) && ds[0] != 0 && ds[|ds| - 1] != 0 }

  predicate Normal(x: Number) { x.Nonzero? ==> Trimmed(x.digits) }

  /** A finite number: the ones JSON prints as numbers. */
  type Finite = x: Number | Normal(x) witness Zero

  function Units(ds: seq<int>): (t: Text)
    requires AreDigits(ds)
    ensures |t| == |ds| && forall i :: 0 <= i < |t| ==> t[i] == 48 + ds[i]
  {
    seq(|ds|, i requires 0 <= i < |ds| => 48 + ds[i])
  }

  function Zeros(n: nat): (t: Text)
    ensures |t| == n && forall i :: 0 <= i < n ==> t[i] == ZERO
  {
    seq(n, i => ZERO)
  }

  function CharUnit(c: char): Unit
    requires IsDigit(c)
  {
    48 + DigitValue(c)
  }

  function NumeralUnits(s: string): (t: Text)
    requires forall i :: 0 <= i < |s| ==> IsDigit(s[i])
    ensures |t| == |s| && forall i :: 0 <= i < |t| ==> t[i] == CharUnit(s[i])
  {
    seq(|s|, i requires 0 <= i < |s| => CharUnit(s[i]))
  }

  function Exponent(e: int): Text {
    [if e < 0 then MINUS else PLUS] + NumeralUnits(Decimal(if e < 0 then -e else e))
  }

  /** One digit alone, or a point after the first. */
  function Mantissa(ds: seq<int>): Text
    requires ds != [] && AreDigits(ds)
  {
    if |ds| == 1 then Units(ds) else Units(ds)[..1] + [POINT] + Units(ds)[1..]
  }

  function Magnitude(ds: seq<int>, n: int): Text
    requires ds != [] && AreDigits(ds)
  {
    var k := |ds|;
    if -5 <= n <= 21 then
      if n >= k then Units(ds) + Zeros(n - k)
      else if n > 0 then Units(ds)[..n] + [POINT] + Units(ds)[n..]
      else [ZERO, POINT] + Zeros(-n) + Units(ds)
    else Mantissa(ds) + [LETTER_E] + Exponent(n - 1)
  }

  function Lexeme(x: Finite): Text {
    match x
    case Zero => [ZERO]
    case Nonzero(negative, digits, point) => (if negative then [MINUS] else []) + Magnitude(digits, point)
  }

  // --------------------------------------------------------------------------
  // Only number units
  // --------------------------------------------------------------------------

  predicate AllNumberUnits(t: Text) { forall i :: 0 <= i < |t| ==> IsNumberUnit(t[i]) }

  lemma ExponentUnits(e: int)
    ensures AllNumberUnits(Exponent(e)) && LETTER_E !in Exponent(e) && POINT !in Exponent(e)
  {
    hide Decimal;
    var s := Decimal(if e < 0 then -e else e);
    forall i | 0 <= i < |s| ensures IsDigitUnit(NumeralUnits(s)[i]) { assert IsDigit(s[i]); }
  }

  lemma MagnitudeUnits(ds: seq<int>, n: int)
    requires ds != [] && AreDigits(ds)
    ensures AllNumberUnits(Magnitude(ds, n)) && Magnitude(ds, n) != [] && IsDigitUnit(Magnitude(ds, n)[0])
  {
    hide Exponent;
    ExponentUnits(n - 1);
  }

  lemma LexemeUnits(x: Finite)
    ensures Lexeme(x) != [] && AllNumberUnits(Lexeme(x))
  {
    hide Magnitude;
    if x.Nonzero? { MagnitudeUnits(x.digits, x.point); }
  }

  // --------------------------------------------------------------------------
  // The text tells the number
  // --------------------------------------------------------------------------

  lemma {:induction false} FirstMark(a: Text, b: Text, c: Text, d: Text, mark: Unit)
    requires a + [mark] + b == c + [mark] + d && mark !in a && mark !in c
    ensures a == c && b == d
    decreases |a|
  {
    var u, v := a + [mark] + b, c + [mark] + d;
    assert u[0] == v[0] && u[0] == (if a == [] then mark else a[0]) && v[0] == (if c == [] then mark else c[0]);
    assert a != [] ==> a[0] in a;
    assert c != [] ==> c[0] in c;
    if a == [] {
      assert u[1..] == b && v[1..] == d;
    } else {
      assert u[1..] == a[1..] + [mark] + b && v[1..] == c[1..] + [mark] + d;
      FirstMark(a[1..], b, c[1..], d, mark);
      assert a == [a[0]] + a[1..] && c == [c[0]] + c[1..];
    }
  }

  lemma UnitsTell(a: seq<int>, b: seq<int>)
    requires AreDigits(a) && AreDigits(b) && Units(a) == Units(b)
    ensures a == b
  {
    assert forall i :: 0 <= i < |a| ==> Units(a)[i] == 48 + a[i] && Units(b)[i] == 48 + b[i];
  }

  lemma NumeralTells(s: string, t: string)
    requires forall i :: 0 <= i < |s| ==> IsDigit(s[i])
    requires forall i :: 0 <= i < |t| ==> IsDigit(t[i])
    requires NumeralUnits(s) == NumeralUnits(t)
    ensures s == t
  {
    forall i | 0 <= i < |s| ensures s[i] == t[i] {
      assert NumeralUnits(s)[i] == NumeralUnits(t)[i];
      DigitTells(s[i], t[i]);
    }
  }

  lemma DigitTells(c: char, d: char)
    requires IsDigit(c) && IsDigit(d) && CharUnit(c) == CharUnit(d)
    ensures c == d
  {}

  lemma ExponentTells(e: int, f: int)
    requires Exponent(e) == Exponent(f)
    ensures e == f
  {
    hide Decimal, NumeralUnits, IsDigit;
    var m, n := if e < 0 then -e else e, if f < 0 then -f else f;
    assert Exponent(e)[0] == Exponent(f)[0];
    assert Exponent(e)[1..] == NumeralUnits(Decimal(m)) && Exponent(f)[1..] == NumeralUnits(Decimal(n));
    NumeralTells(Decimal(m), Decimal(n));
    ValueOfDecimal(m);
    ValueOfDecimal(n);
  }

  lemma NoMarks(ds: seq<int>, n: nat)
    requires AreDigits(ds) && n <= |ds|
    ensures POINT !in Units(ds)[..n] && LETTER_E !in Units(ds)[..n] && POINT !in Units(ds)[n..] && LETTER_E !in Units(ds)[n..]
    ensures POINT !in Units(ds) && LETTER_E !in Units(ds)
  {}

  lemma MantissaMarks(ds: seq<int>)
    requires ds != [] && AreDigits(ds)
    ensures LETTER_E !in Mantissa(ds)
  {
    NoMarks(ds, 1);
  }

  lemma MantissaTells(a: seq<int>, b: seq<int>)
    requires a != [] && b != [] && AreDigits(a) && AreDigits(b) && Mantissa(a) == Mantissa(b)
    ensures a == b
  {
    NoMarks(a, 1);
    NoMarks(b, 1);
    MantissaLength(a);
    MantissaLength(b);
    if |a| > 1 {
      FirstMark(Units(a)[..1], Units(a)[1..], Units(b)[..1], Units(b)[1..], POINT);
      assert Units(a) == Units(a)[..1] + Units(a)[1..] && Units(b) == Units(b)[..1] + Units(b)[1..];
    }
    UnitsTell(a, b);
  }

  lemma MantissaLength(ds: seq<int>)
    requires ds != [] && AreDigits(ds)
    ensures |Mantissa(ds)| == if |ds| == 1 then 1 else |ds| + 1
  {}

  lemma NotShorter(a: Text, m: nat, b: Text, n: nat)
    requires a + Zeros(m) == b + Zeros(n) && b != [] && b[|b| - 1] != ZERO
    ensures |b| <= |a|
  {
    var u, v, k := a + Zeros(m), b + Zeros(n), |b| - 1;
    assert u[k] == v[k] && v[k] == b[k];
    assert u[k] == (if k < |a| then a[k] else ZERO);
  }

  /** Trailing zeros are told from digits that do not end in zero. */
  lemma ZerosAfter(a: Text, m: nat, b: Text, n: nat)
    requires a + Zeros(m) == b + Zeros(n) && a != [] && b != []
    requires a[|a| - 1] != ZERO && b[|b| - 1] != ZERO
    ensures a == b && m == n
  {
    NotShorter(a, m, b, n);
    NotShorter(b, n, a, m);
    assert (a + Zeros(m))[..|a|] == a && (b + Zeros(n))[..|b|] == b;
  }

  lemma NoFewer(m: nat, a: Text, n: nat, b: Text)
    requires Zeros(m) + a == Zeros(n) + b && a != [] && a[0] != ZERO
    ensures n <= m
  {
    var u, v := Zeros(m) + a, Zeros(n) + b;
    assert u[m] == v[m] && u[m] == a[0];
    assert v[m] == (if m < n then ZERO else b[m - n]);
  }

  lemma ZerosBefore(m: nat, a: Text, n: nat, b: Text)
    requires Zeros(m) + a == Zeros(n) + b && a != [] && b != [] && a[0] != ZERO && b[0] != ZERO
    ensures m == n && a == b
  {
    NoFewer(m, a, n, b);
    NoFewer(n, b, m, a);
    assert (Zeros(m) + a)[m..] == a && (Zeros(n) + b)[n..] == b;
  }

  datatype Form = Whole | Split | Fraction | Scientific

  function FormOf(ds: seq<int>, n: int): Form {
    if !(-5 <= n <= 21) then Scientific else if n >= |ds| then Whole else if n > 0 then Split else Fraction
  }

  /** Which marks a form shows, and how it starts. */
  lemma Shows(ds: seq<int>, n: int)
    requires ds != [] && AreDigits(ds) && ds[0] != 0
    ensures LETTER_E in Magnitude(ds, n) <==> FormOf(ds, n).Scientific?
    ensures !FormOf(ds, n).Scientific? ==> (POINT in Magnitude(ds, n) <==> !FormOf(ds, n).Whole?)
    ensures Magnitude(ds, n) != [] && (Magnitude(ds, n)[0] == ZERO <==> FormOf(ds, n).Fraction?)
    ensures FormOf(ds, n).Fraction? ==> |Magnitude(ds, n)| > 1
  {
    hide Exponent;
    var t := Magnitude(ds, n);
    match FormOf(ds, n)
    case Whole => NoMarks(ds, |ds|);
    case Split =>
      NoMarks(ds, n);
      assert t[n] == POINT;
    case Fraction =>
      NoMarks(ds, |ds|);
      assert t[1] == POINT;
    case Scientific => assert t[|Mantissa(ds)|] == LETTER_E;
  }

  lemma SplitTells(a: seq<int>, m: int, b: seq<int>, n: int)
    requires AreDigits(a) && AreDigits(b) && 0 < m < |a| && 0 < n < |b|
    requires Units(a)[..m] + [POINT] + Units(a)[m..] == Units(b)[..n] + [POINT] + Units(b)[n..]
    ensures a == b && m == n
  {
    NoMarks(a, m);
    NoMarks(b, n);
    FirstMark(Units(a)[..m], Units(a)[m..], Units(b)[..n], Units(b)[n..], POINT);
    assert Units(a) == Units(a)[..m] + Units(a)[m..] && Units(b) == Units(b)[..n] + Units(b)[n..];
    UnitsTell(a, b);
  }

  lemma WholeTells(a: seq<int>, m: int, b: seq<int>, n: int)
    requires Trimmed(a) && Trimmed(b) && |a| <= m && |b| <= n
    requires Units(a) + Zeros(m - |a|) == Units(b) + Zeros(n - |b|)
    ensures a == b && m == n
  {
    ZerosAfter(Units(a), m - |a|, Units(b), n - |b|);
    UnitsTell(a, b);
  }

  lemma FractionTells(a: seq<int>, m: nat, b: seq<int>, n: nat)
    requires Trimmed(a) && Trimmed(b)
    requires [ZERO, POINT] + Zeros(m) + Units(a) == [ZERO, POINT] + Zeros(n) + Units(b)
    ensures a == b && m == n
  {
    var u, v := [ZERO, POINT] + Zeros(m) + Units(a), [ZERO, POINT] + Zeros(n) + Units(b);
    assert u[2..] == Zeros(m) + Units(a) && v[2..] == Zeros(n) + Units(b);
    ZerosBefore(m, Units(a), n, Units(b));
    UnitsTell(a, b);
  }

  lemma ScientificTells(a: seq<int>, m: int, b: seq<int>, n: int)
    requires a != [] && b != [] && AreDigits(a) && AreDigits(b)
    requires Mantissa(a) + [LETTER_E] + Exponent(m) == Mantissa(b) + [LETTER_E] + Exponent(n)
    ensures a == b && m == n
  {
    hide Mantissa, Exponent;
    MantissaMarks(a);
    MantissaMarks(b);
    FirstMark(Mantissa(a), Exponent(m), Mantissa(b), Exponent(n), LETTER_E);
    MantissaTells(a, b);
    ExponentTells(m, n);
  }

  lemma MagnitudeTells(a: seq<int>, m: int, b: seq<int>, n: int)
    requires Trimmed(a) && Trimmed(b)
    requires Magnitude(a, m) == Magnitude(b, n)
    ensures a == b && m == n
  {
    hide Mantissa, Exponent;
    Shows(a, m);
    Shows(b, n);
    match FormOf(a, m)
    case Whole => WholeTells(a, m, b, n);
    case Split => SplitTells(a, m, b, n);
    case Fraction => FractionTells(a, -m, b, -n);
    case Scientific => ScientificTells(a, m - 1, b, n - 1);
  }

  /** Two numbers print alike only if they are the same number. */
  lemma LexemeTells(x: Finite, y: Finite)
    requires Lexeme(x) == Lexeme(y)
    ensures x == y
  {
    hide Magnitude;
    if x.Nonzero? {
      MagnitudeUnits(x.digits, x.point);
      Shows(x.digits, x.point);
    }
    if y.Nonzero? {
      MagnitudeUnits(y.digits, y.point);
      Shows(y.digits, y.point);
    }
    var u, v := Lexeme(x), Lexeme(y);
    assert u[0] == v[0];
    if x.Nonzero? && y.Nonzero? {
      assert u[if x.negative then 1 else 0..] == Magnitude(x.digits, x.point);
      assert v[if y.negative then 1 else 0..] == Magnitude(y.digits, y.point);
      MagnitudeTells(x.digits, x.point, y.digits, y.point);
    }
  }
}
