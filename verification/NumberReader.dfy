/**
 Reading a numeral, by the grammar of section 6 of RFC 8259, and what the printed
 numbers of NumberText read as.
 */
module NumberReader {
  import opened Decimals
  import opened NumberText

  /** What was read, and the text after it. */
  datatype Reading<T> = Failed | Got(value: T, rest: Text)

  // --------------------------------------------------------------------------
  // The reader
  // --------------------------------------------------------------------------

  /** How many digits a text starts with. */
  function DigitRun(t: Text): (n: nat)
    ensures n <= |t| && (forall i :: 0 <= i < n ==> IsDigitUnit(t[i])) && (n < |t| ==> !IsDigitUnit(t[n]))
  {
    if t == [] || !IsDigitUnit(t[0]) then 0 else 1 + DigitRun(t[1..])
  }

  function DigitAt(c: Unit): (d: int)
    ensures IsDigitUnit(c) ==> 0 <= d <= 9
  {
    c as int - 48
  }

  function DigitsOf(t: Text): (ds: seq<int>)
    requires forall i :: 0 <= i < |t| ==> IsDigitUnit(t[i])
    ensures |ds| == |t| && AreDigits(ds) && forall i :: 0 <= i < |t| ==> ds[i] == DigitAt(t[i])
  {
    seq(|t|, i requires 0 <= i < |t| => DigitAt(t[i]))
  }

  function Whole(ds: seq<int>): int {
    if ds == [] then 0 else 10 * Whole(ds[..|ds| - 1]) + ds[|ds| - 1]
  }

  /** The number with these digits and its point after the `point`-th of them. */
  function NumberOf(negative: bool, ds: seq<int>, point: int): (x: Number)
    requires AreDigits(ds)
    ensures Normal(x)
    decreases |ds|
  {
    if ds == [] then Zero
    else if ds[0] == 0 then NumberOf(negative, ds[1..], point - 1)
    else if ds[|ds| - 1] == 0 then NumberOf(negative, ds[..|ds| - 1], point)
    else Nonzero(negative, ds, point)
  }

  function ReadFraction(t: Text): (r: Reading<seq<int>>)
    ensures r.Got? ==> |r.rest| <= |t| && AreDigits(r.value)
  {
    if t == [] || t[0] != 46 then Got([], t)
    else
      var n := DigitRun(t[1..]);
      if n == 0 then Failed else Got(DigitsOf(t[1..n + 1]), t[n + 1..])
  }

  function ReadExponent(t: Text): (r: Reading<int>)
    ensures r.Got? ==> |r.rest| <= |t|
  {
    if t == [] || (t[0] != 101 && t[0] != 69) then Got(0, t)
    else
      var signed := |t| > 1 && (t[1] == 43 || t[1] == 45);
      var u := t[if signed then 2 else 1..];
      var n := DigitRun(u);
      if n == 0 then Failed
      else
        var e := Whole(DigitsOf(u[..n]));
        Got(if signed && t[1] == 45 then -e else e, u[n..])
  }

  function ReadUnsigned(negative: bool, u: Text): (r: Reading<Number>)
    ensures r.Got? ==> |r.rest| < |u| && Normal(r.value)
  {
    var n := DigitRun(u);
    if n == 0 || (n > 1 && u[0] == 48) then Failed
    else
      var fraction := ReadFraction(u[n..]);
      if fraction.Failed? then Failed
      else
        var exponent := ReadExponent(fraction.rest);
        if exponent.Failed? then Failed
        else Got(NumberOf(negative, DigitsOf(u[..n]) + fraction.value, n + exponent.value), exponent.rest)
  }

  function ReadNumber(t: Text): (r: Reading<Number>)
    ensures r.Got? ==> |r.rest| < |t| && Normal(r.value)
  {
    if t != [] && t[0] == 45 then ReadUnsigned(true, t[1..]) else ReadUnsigned(false, t)
  }

  // --------------------------------------------------------------------------
  // A number is its decimal value
  // --------------------------------------------------------------------------

  function Ten(n: int): real
    decreases if n < 0 then -n else n
  {
    if n == 0 then 1.0 else if n > 0 then 10.0 * Ten(n - 1) else Ten(n + 1) / 10.0
  }

  /** `ds[0]` counts tens to the `point - 1`, and so on down. */
  function Scaled(ds: seq<int>, point: int): real {
    if ds == [] then 0.0 else ds[0] as real * Ten(point - 1) + Scaled(ds[1..], point - 1)
  }

  function ValueOf(x: Number): real {
    match x
    case Zero => 0.0
    case Nonzero(negative, ds, point) => if negative then -Scaled(ds, point) else Scaled(ds, point)
  }

  lemma {:induction false} LastZero(ds: seq<int>, point: int)
    requires ds != [] && ds[|ds| - 1] == 0
    ensures Scaled(ds[..|ds| - 1], point) == Scaled(ds, point)
    decreases |ds|
  {
    if |ds| > 1 {
      LastZero(ds[1..], point - 1);
      assert ds[1..][..|ds| - 2] == ds[..|ds| - 1][1..];
    }
  }

  /** Dropping zeros at either end keeps the value. */
  lemma {:induction false} NumberOfValue(negative: bool, ds: seq<int>, point: int)
    requires AreDigits(ds)
    ensures ValueOf(NumberOf(negative, ds, point)) == if negative then -Scaled(ds, point) else Scaled(ds, point)
    decreases |ds|
  {
    if ds == [] {
    } else if ds[0] == 0 {
      NumberOfValue(negative, ds[1..], point - 1);
    } else if ds[|ds| - 1] == 0 {
      NumberOfValue(negative, ds[..|ds| - 1], point);
      LastZero(ds, point);
    }
  }

  // --------------------------------------------------------------------------
  // Reading what was printed
  // --------------------------------------------------------------------------

  lemma RunOf(ds: seq<int>, y: Text)
    requires AreDigits(ds) && (y == [] || !IsDigitUnit(y[0]))
    ensures DigitRun(Units(ds) + y) == |ds| && DigitsOf((Units(ds) + y)[..|ds|]) == ds && (Units(ds) + y)[|ds|..] == y
  {
    RunStops(Units(ds), y);
    assert (Units(ds) + y)[..|ds|] == Units(ds);
  }

  lemma {:induction false} RunStops(t: Text, y: Text)
    requires (forall i :: 0 <= i < |t| ==> IsDigitUnit(t[i])) && (y == [] || !IsDigitUnit(y[0]))
    ensures DigitRun(t + y) == |t|
    decreases |t|
  {
    if t == [] {
      assert t + y == y;
    } else {
      assert (t + y)[0] == t[0] && (t + y)[1..] == t[1..] + y;
      RunStops(t[1..], y);
    }
  }

  lemma {:induction false} WholeOfNumeral(s: string)
    requires forall i :: 0 <= i < |s| ==> IsDigit(s[i])
    ensures Whole(DigitsOf(NumeralUnits(s))) == Value(s)
    decreases |s|
  {
    if s != "" {
      var t, n := s[..|s| - 1], |s| - 1;
      WholeOfNumeral(t);
      assert DigitsOf(NumeralUnits(s))[..n] == DigitsOf(NumeralUnits(t));
    }
  }

  /** What can follow a value in a text: nothing, a comma, or a closing bracket. */
  predicate Ends(y: Text) { y == [] || y[0] == 44 || y[0] == 93 || y[0] == 125 }

  function FractionText(ds: seq<int>): Text
    requires AreDigits(ds)
  {
    if ds == [] then [] else [POINT] + Units(ds)
  }

  /** An exponent of zero is not printed. */
  function ExponentText(e: int): Text { if e == 0 then [] else [LETTER_E] + Exponent(e) }

  lemma ReadsFraction(ds: seq<int>, y: Text)
    requires AreDigits(ds) && (y == [] || (!IsDigitUnit(y[0]) && y[0] != POINT))
    ensures ReadFraction(FractionText(ds) + y) == Got(ds, y)
  {
    hide DigitRun, DigitsOf, Units;
    var t := FractionText(ds) + y;
    if ds == [] {
      assert t == y;
    } else {
      var u := Units(ds) + y;
      Regrouped([POINT], Units(ds), y);
      assert t[0] == POINT && t[1..] == u;
      RunOf(ds, y);
      assert t[1..|ds| + 1] == u[..|ds|] && t[|ds| + 1..] == u[|ds|..];
    }
  }

  lemma ReadsExponent(e: int, y: Text)
    requires Ends(y)
    ensures ReadExponent(ExponentText(e) + y) == Got(e, y)
  {
    hide Decimal, Whole, DigitRun, NumeralUnits, DigitsOf, Units;
    var t := ExponentText(e) + y;
    if e == 0 {
      assert t == y;
    } else {
      var ds := ExponentDigits(e);
      var u := Units(ds) + y;
      RunOf(ds, y);
      SignedStart(e, y);
      assert t[2..] == u;
    }
  }

  /** The digits an exponent is printed with. */
  lemma ExponentDigits(e: int) returns (ds: seq<int>)
    ensures ds != [] && AreDigits(ds) && Exponent(e)[1..] == Units(ds) && Whole(ds) == if e < 0 then -e else e
  {
    hide Decimal, Whole, NumeralUnits;
    var m := if e < 0 then -e else e;
    NumeralIsUnits(Decimal(m));
    ds := DigitsOf(NumeralUnits(Decimal(m)));
    WholeOfNumeral(Decimal(m));
    ValueOfDecimal(m);
  }

  lemma ExponentSign(e: int)
    ensures Exponent(e) != [] && Exponent(e)[0] == if e < 0 then MINUS else PLUS
  {
    hide NumeralUnits, Decimal;
  }

  lemma SignedStart(e: int, y: Text)
    requires e != 0
    ensures var t := ExponentText(e) + y;
            && |t| >= 2 && t[0] == LETTER_E && t[1] == (if e < 0 then MINUS else PLUS) && t[2..] == Exponent(e)[1..] + y
  {
    hide Exponent;
    ExponentSign(e);
  }

  lemma NumeralIsUnits(s: string)
    requires forall i :: 0 <= i < |s| ==> IsDigit(s[i])
    ensures forall i :: 0 <= i < |s| ==> IsDigitUnit(NumeralUnits(s)[i])
    ensures Units(DigitsOf(NumeralUnits(s))) == NumeralUnits(s)
  {
    forall i | 0 <= i < |s| ensures IsDigitUnit(NumeralUnits(s)[i]) { assert IsDigit(s[i]); }
  }

  /** A numeral in its parts. */
  function Numeral(negative: bool, ip: seq<int>, fp: seq<int>, e: int): Text
    requires AreDigits(ip) && AreDigits(fp)
  {
    (if negative then [MINUS] else []) + Units(ip) + FractionText(fp) + ExponentText(e)
  }

  lemma ReadsUnsigned(negative: bool, ip: seq<int>, fp: seq<int>, e: int, y: Text)
    requires AreDigits(ip) && AreDigits(fp) && ip != [] && (|ip| > 1 ==> ip[0] != 0) && Ends(y)
    ensures ReadUnsigned(negative, Units(ip) + (FractionText(fp) + (ExponentText(e) + y))) ==
            Got(NumberOf(negative, ip + fp, |ip| + e), y)
  {
    hide DigitRun, DigitsOf, ReadFraction, ReadExponent, NumberOf, FractionText, ExponentText, Units, Normal;
    var v := ExponentText(e) + y;
    var w := FractionText(fp) + v;
    var u := Units(ip) + w;
    PartsStart(fp, e, y);
    RunOf(ip, w);
    ReadsFraction(fp, v);
    ReadsExponent(e, y);
    assert u[0] == 48 + ip[0];
    assert ReadFraction(u[|ip|..]) == Got(fp, v);
  }

  lemma ReadsNumeral(negative: bool, ip: seq<int>, fp: seq<int>, e: int, y: Text)
    requires AreDigits(ip) && AreDigits(fp) && ip != [] && (|ip| > 1 ==> ip[0] != 0) && Ends(y)
    ensures ReadNumber(Numeral(negative, ip, fp, e) + y) == Got(NumberOf(negative, ip + fp, |ip| + e), y)
  {
    hide ReadUnsigned, NumberOf, FractionText, ExponentText, Units, Numeral, Normal;
    NumeralStart(negative, ip, fp, e, y);
    ReadsUnsigned(negative, ip, fp, e, y);
  }

  lemma NumeralStart(negative: bool, ip: seq<int>, fp: seq<int>, e: int, y: Text)
    requires AreDigits(ip) && AreDigits(fp) && ip != []
    ensures var t, u := Numeral(negative, ip, fp, e) + y, Units(ip) + (FractionText(fp) + (ExponentText(e) + y));
            && t != [] && (negative <==> t[0] == 45) && (if negative then t[1..] else t) == u && u[0] == 48 + ip[0]
  {
    hide FractionText, ExponentText;
    var t, u := Numeral(negative, ip, fp, e) + y, Units(ip) + (FractionText(fp) + (ExponentText(e) + y));
    assert negative ==> t == [MINUS] + u;
    assert !negative ==> t == u;
  }

  lemma PartsStart(fp: seq<int>, e: int, y: Text)
    requires AreDigits(fp) && Ends(y)
    ensures var v := ExponentText(e) + y; v == [] || (!IsDigitUnit(v[0]) && v[0] != POINT)
    ensures var w := FractionText(fp) + (ExponentText(e) + y); w == [] || !IsDigitUnit(w[0])
  {
    hide Exponent;
  }

  function ZeroDigits(n: nat): (ds: seq<int>)
    ensures |ds| == n && forall i :: 0 <= i < n ==> ds[i] == 0
  {
    seq(n, i => 0)
  }

  lemma ZerosStart(n: nat, ds: seq<int>)
    requires n > 0
    ensures (ZeroDigits(n) + ds)[0] == 0 && (ZeroDigits(n) + ds)[1..] == ZeroDigits(n - 1) + ds
  {}

  lemma {:induction false} LeadingZeros(negative: bool, n: nat, ds: seq<int>, point: int)
    requires Trimmed(ds)
    ensures NumberOf(negative, ZeroDigits(n) + ds, point) == Nonzero(negative, ds, point - n)
    decreases n
  {
    hide ZeroDigits;
    if n > 0 {
      ZerosStart(n, ds);
      LeadingZeros(negative, n - 1, ds, point - 1);
    } else {
      assert ZeroDigits(n) + ds == ds;
    }
  }

  lemma {:induction false} TrailingZeros(negative: bool, ds: seq<int>, n: nat, point: int)
    requires Trimmed(ds)
    ensures NumberOf(negative, ds + ZeroDigits(n), point) == Nonzero(negative, ds, point)
    decreases n
  {
    var all := ds + ZeroDigits(n);
    if n > 0 {
      assert all[..|all| - 1] == ds + ZeroDigits(n - 1);
      TrailingZeros(negative, ds, n - 1, point);
    } else {
      assert all == ds;
    }
  }

  lemma {:induction false} PlainNumber(negative: bool, ds: seq<int>, point: int)
    requires Trimmed(ds)
    ensures NumberOf(negative, ds, point) == Nonzero(negative, ds, point)
  {}

  /** The parts of a printed number: digits before the point, digits after it, exponent. */
  lemma LexemeParts(x: Finite) returns (ip: seq<int>, fp: seq<int>, e: int)
    requires x.Nonzero?
    ensures AreDigits(ip) && AreDigits(fp) && ip != [] && (|ip| > 1 ==> ip[0] != 0)
    ensures Lexeme(x) == Numeral(x.negative, ip, fp, e)
    ensures NumberOf(x.negative, ip + fp, |ip| + e) == x
    ensures e == if -5 <= x.point <= 21 then 0 else x.point - 1
    ensures fp != [] <==> if -5 <= x.point <= 21 then x.point < |x.digits| else |x.digits| > 1
    ensures fp != [] ==> fp[|fp| - 1] != 0
  {
    hide Exponent, NumberOf, Magnitude, Units, FractionText, ExponentText, Lexeme, Numeral;
    var ds, n := x.digits, x.point;
    if !(-5 <= n <= 21) {
      ip, fp, e := ds[..1], ds[1..], n - 1;
      PlainNumber(x.negative, ds, n);
      assert ip + fp == ds;
      ScientificParts(ds, n);
    } else if n >= |ds| {
      ip, fp, e := ds + ZeroDigits(n - |ds|), [], 0;
      TrailingZeros(x.negative, ds, n - |ds|, n);
      assert ip + fp == ip;
      WholeParts(ds, n);
    } else if n > 0 {
      ip, fp, e := ds[..n], ds[n..], 0;
      PlainNumber(x.negative, ds, n);
      assert ip + fp == ds;
      SplitParts(ds, n);
    } else {
      ip, fp, e := [0], ZeroDigits(-n) + ds, 0;
      LeadingZeros(x.negative, 1 - n, ds, 1);
      assert ip + fp == ZeroDigits(1 - n) + ds;
      SmallParts(ds, n);
    }
    NumeralParts(x, ip, fp, e);
  }

  lemma NumeralParts(x: Finite, ip: seq<int>, fp: seq<int>, e: int)
    requires x.Nonzero? && AreDigits(ip) && AreDigits(fp)
    requires Magnitude(x.digits, x.point) == Units(ip) + FractionText(fp) + ExponentText(e)
    ensures Lexeme(x) == Numeral(x.negative, ip, fp, e)
  {
    hide Magnitude, FractionText, ExponentText;
    var m := Units(ip) + FractionText(fp) + ExponentText(e);
    assert (if x.negative then [MINUS] else []) + m == Numeral(x.negative, ip, fp, e);
  }

  lemma WholeParts(ds: seq<int>, n: int)
    requires Trimmed(ds) && |ds| <= n <= 21
    ensures Magnitude(ds, n) == Units(ds + ZeroDigits(n - |ds|)) + FractionText([]) + ExponentText(0)
  {
    assert Units(ds + ZeroDigits(n - |ds|)) == Units(ds) + Zeros(n - |ds|);
  }

  lemma UnitsSliced(ds: seq<int>, n: nat)
    requires AreDigits(ds) && n <= |ds|
    ensures Units(ds[..n]) == Units(ds)[..n] && Units(ds[n..]) == Units(ds)[n..]
  {}

  lemma Regrouped(a: Text, b: Text, c: Text)
    ensures a + b + c == a + (b + c)
  {}

  lemma NothingAdded(a: Text)
    ensures a + [] == a
  {}

  lemma SplitParts(ds: seq<int>, n: int)
    requires Trimmed(ds) && 0 < n < |ds| && n <= 21
    ensures Magnitude(ds, n) == Units(ds[..n]) + FractionText(ds[n..]) + ExponentText(0)
  {
    hide Units;
    UnitsSliced(ds, n);
    Regrouped(Units(ds)[..n], [POINT], Units(ds)[n..]);
    NothingAdded(Units(ds[..n]) + FractionText(ds[n..]));
  }

  lemma SmallParts(ds: seq<int>, n: int)
    requires Trimmed(ds) && -5 <= n <= 0
    ensures Magnitude(ds, n) == Units([0]) + FractionText(ZeroDigits(-n) + ds) + ExponentText(0)
  {
    assert Units(ZeroDigits(-n) + ds) == Zeros(-n) + Units(ds);
    assert [ZERO, POINT] + Zeros(-n) + Units(ds) == Units([0]) + ([POINT] + (Zeros(-n) + Units(ds))) + [];
  }

  lemma MantissaParts(ds: seq<int>)
    requires ds != [] && AreDigits(ds)
    ensures Mantissa(ds) == Units(ds[..1]) + FractionText(ds[1..])
  {
    hide Units;
    UnitsSliced(ds, 1);
    if |ds| == 1 {
      assert ds[..1] == ds;
      NothingAdded(Units(ds));
    } else {
      Regrouped(Units(ds)[..1], [POINT], Units(ds)[1..]);
    }
  }

  lemma ScientificParts(ds: seq<int>, n: int)
    requires Trimmed(ds) && !(-5 <= n <= 21)
    ensures Magnitude(ds, n) == Units(ds[..1]) + FractionText(ds[1..]) + ExponentText(n - 1)
  {
    hide Exponent, Units, Mantissa, FractionText;
    MantissaParts(ds);
    Regrouped(Mantissa(ds), [LETTER_E], Exponent(n - 1));
  }

  /** Every printed number reads as itself, with what follows left over. */
  lemma LexemeIsRead(x: Finite, y: Text)
    requires Ends(y)
    ensures ReadNumber(Lexeme(x) + y) == Reading<Number>.Got(x, y)
  {
    hide ReadNumber, Lexeme;
    match x
    case Zero =>
      LexemeOfZero();
      ReadsNumeral(false, [0], [], 0, y);
    case Nonzero(negative, _, _) =>
      var ip, fp, e := LexemeParts(x);
      ReadsNumeral(negative, ip, fp, e, y);
  }

  lemma LexemeOfZero()
    ensures Lexeme(Zero) == Numeral(false, [0], [], 0)
    ensures NumberOf(false, [0] + [], 1) == Zero
  {}

  lemma UnitsOnly(ds: seq<int>)
    requires AreDigits(ds)
    ensures forall c :: c in Units(ds) ==> IsDigitUnit(c)
  {}

  lemma ExponentMarks(e: int)
    ensures (43 in Exponent(e) <==> e >= 0) && (45 in Exponent(e) <==> e < 0) && 101 !in Exponent(e) && 46 !in Exponent(e)
  {
    hide Units, Exponent;
    ExponentSign(e);
    var ds := ExponentDigits(e);
    UnitsOnly(ds);
    assert Exponent(e) == [Exponent(e)[0]] + Units(ds);
  }

  lemma ExponentTextMarks(e: int)
    ensures var t := ExponentText(e);
            (101 in t <==> e != 0) && 46 !in t && (43 in t <==> e > 0) && (45 in t <==> e < 0)
  {
    hide Exponent;
    ExponentMarks(e);
  }

  lemma FractionTextMarks(ds: seq<int>)
    requires AreDigits(ds)
    ensures var t := FractionText(ds); 101 !in t && (46 in t <==> ds != []) && 43 !in t && 45 !in t
  {
    hide Units;
    UnitsOnly(ds);
  }

  lemma NumeralMarks(negative: bool, ip: seq<int>, fp: seq<int>, e: int)
    requires AreDigits(ip) && AreDigits(fp)
    ensures var t := Numeral(negative, ip, fp, e);
            && (101 in t <==> e != 0) && (46 in t <==> fp != []) && (43 in t <==> e > 0)
            && (45 in t <==> negative || e < 0)
  {
    hide Units, FractionText, ExponentText;
    UnitsOnly(ip);
    FractionTextMarks(fp);
    ExponentTextMarks(e);
  }

  /** The digits after the point end in no zero, right before the exponent or the end. */
  ghost predicate FractionIsTight(t: Text) {
    exists i :: 0 <= i < |t| && 48 < t[i] <= 57 && (i + 1 == |t| || t[i + 1] == 101)
  }

  /** The exponent has a sign, and its digits start with no zero. */
  ghost predicate ExponentIsTight(t: Text) {
    exists i :: 0 <= i < |t| - 2 && t[i] == 101 && (t[i + 1] == 43 || t[i + 1] == 45) && 48 < t[i + 2] <= 57
  }

  lemma ExponentStart(e: int)
    requires e != 0
    ensures |Exponent(e)| > 1 && (Exponent(e)[0] == 43 || Exponent(e)[0] == 45) && 48 < Exponent(e)[1] <= 57
  {
    hide Decimal;
    var m := if e < 0 then -e else e;
    NoLeadingZero(m);
    assert IsDigit(Decimal(m)[0]);
    assert Exponent(e)[1] == CharUnit(Decimal(m)[0]);
  }

  lemma TightExponent(negative: bool, ip: seq<int>, fp: seq<int>, e: int)
    requires AreDigits(ip) && AreDigits(fp) && e != 0
    ensures ExponentIsTight(Numeral(negative, ip, fp, e))
  {
    hide Exponent, FractionText, Units;
    ExponentStart(e);
    var t := Numeral(negative, ip, fp, e);
    var i := |t| - |ExponentText(e)|;
    assert t[i..] == ExponentText(e);
    assert t[i] == t[i..][0] && t[i + 1] == t[i..][1] && t[i + 2] == t[i..][2];
  }

  lemma TightFraction(negative: bool, ip: seq<int>, fp: seq<int>, e: int)
    requires AreDigits(ip) && AreDigits(fp) && fp != [] && fp[|fp| - 1] != 0
    ensures FractionIsTight(Numeral(negative, ip, fp, e))
  {
    hide Exponent;
    var t := Numeral(negative, ip, fp, e);
    var i := |t| - |ExponentText(e)| - 1;
    assert t[..i + 1] == (if negative then [MINUS] else []) + Units(ip) + FractionText(fp);
    assert t[i] == t[..i + 1][i] && t[i] == 48 + fp[|fp| - 1];
    assert t[i + 1..] == ExponentText(e);
    assert e != 0 ==> t[i + 1] == t[i + 1..][0];
  }

  lemma NumeralSign(negative: bool, ip: seq<int>, fp: seq<int>, e: int)
    requires AreDigits(ip) && AreDigits(fp) && ip != []
    ensures var t := Numeral(negative, ip, fp, e); |t| > 0 && (t[0] == 45 <==> negative)
  {
    hide Exponent, FractionText;
  }

  /**
   How a number is written: with an exponent exactly from ten to the 21st up and below
   ten to the -6th, signed either way; with a point exactly when digits come after it,
   the last of them no zero; and with a minus sign in front exactly when it is negative.
   */
  lemma LexemeShape(x: Finite)
    requires x.Nonzero?
    ensures var t := Lexeme(x);
            && (101 in t <==> x.point < -5 || x.point > 21)
            && (46 in t <==> if x.point < -5 || x.point > 21 then |x.digits| > 1 else x.point < |x.digits|)
            && (43 in t <==> x.point > 21)
            && |t| > 0 && (t[0] == 45 <==> x.negative)
            && (46 in t ==> FractionIsTight(t))
            && (101 in t ==> ExponentIsTight(t))
  {
    hide Lexeme, Numeral, NumberOf, FractionIsTight, ExponentIsTight;
    var ip, fp, e := LexemeParts(x);
    NumeralMarks(x.negative, ip, fp, e);
    NumeralSign(x.negative, ip, fp, e);
    if fp != [] { TightFraction(x.negative, ip, fp, e); }
    if e != 0 { TightExponent(x.negative, ip, fp, e); }
  }
}
