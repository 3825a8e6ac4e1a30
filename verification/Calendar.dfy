/**
 The proleptic Gregorian calendar as section 21.4.1 of ECMA-262 counts it: a day is
 an ordinal, day 0 is 1970-01-01, and every field is recovered from the ordinal.
 */
module Calendar {
  datatype Date = Date(y: int, m: int, d: int) {
    predicate Valid() { 1 <= m <= 12 && 1 <= d <= MonthLength(y, m) }
  }

  predicate Leap(y: int) { y % 4 == 0 && (y % 100 != 0 || y % 400 == 0) }

  function DaysInYear(y: int): int { if Leap(y) then 366 else 365 }

  function Quotient(n: int, k: int): int
    requires k > 0
  {
    n / k
  }

  /** DayFromYear of section 21.4.1.6. */
  function YearStart(y: int): int {
    365 * (y - 1970) + Quotient(y - 1969, 4) - Quotient(y - 1901, 100) + Quotient(y - 1601, 400)
  }

  function MonthLength(y: int, m: int): (n: int)
    requires 1 <= m <= 12
    ensures 28 <= n <= 31
  {
    if m == 2 then (if Leap(y) then 29 else 28)
    else if m == 4 || m == 6 || m == 9 || m == 11 then 30
    else 31
  }

  /** Days of the year before month `m`; 13 stands for the end of the year. */
  function MonthStart(y: int, m: int): (n: int)
    requires 1 <= m <= 13
    ensures 28 * (m - 1) <= n <= 31 * (m - 1)
    decreases m
  {
    if m == 1 then 0 else MonthStart(y, m - 1) + MonthLength(y, m - 1)
  }

  function Ordinal(x: Date): int
    requires 1 <= x.m <= 12
  {
    YearStart(x.y) + MonthStart(x.y, x.m) + x.d - 1
  }

  predicate Multiple(y: int, k: int)
    requires k > 0
  {
    y % k == 0
  }

  lemma NextQuotient4(y: int)
    ensures Quotient(y - 1968, 4) == Quotient(y - 1969, 4) + (if Multiple(y, 4) then 1 else 0)
  {}

  lemma NextQuotient100(y: int)
    ensures Quotient(y - 1900, 100) == Quotient(y - 1901, 100) + (if Multiple(y, 100) then 1 else 0)
  {}

  lemma NextQuotient400(y: int)
    ensures Quotient(y - 1600, 400) == Quotient(y - 1601, 400) + (if Multiple(y, 400) then 1 else 0)
  {}

  lemma LeapMeans(y: int)
    ensures Leap(y) <==> Multiple(y, 4) && (!Multiple(y, 100) || Multiple(y, 400))
  {}

  lemma Multiples(y: int)
    ensures Multiple(y, 400) ==> Multiple(y, 100)
    ensures Multiple(y, 100) ==> Multiple(y, 4)
  {
    assert Multiple(y, 400) ==> y == 100 * (4 * (y / 400));
    assert Multiple(y, 100) ==> y == 4 * (25 * (y / 100));
  }

  lemma YearStep(y: int)
    ensures YearStart(y + 1) == YearStart(y) + DaysInYear(y)
  {
    hide Quotient, Multiple, Leap;
    NextQuotient4(y);
    NextQuotient100(y);
    NextQuotient400(y);
    LeapMeans(y);
    Multiples(y);
  }

  lemma YearLength(y: int)
    ensures MonthStart(y, 13) == DaysInYear(y)
  {
    assert MonthStart(y, 4) == (if Leap(y) then 91 else 90);
    assert MonthStart(y, 7) == MonthStart(y, 4) + 91;
    assert MonthStart(y, 10) == MonthStart(y, 7) + 92;
  }

  lemma {:induction false} MonthStartsAscend(y: int, m: int, n: int)
    requires 1 <= m < n <= 13
    ensures MonthStart(y, m) + MonthLength(y, m) <= MonthStart(y, n)
    decreases n
  {
    if m < n - 1 { MonthStartsAscend(y, m, n - 1); }
  }

  lemma {:induction false} YearStartsAscend(y: int, z: int)
    requires y < z
    ensures YearStart(y) + DaysInYear(y) <= YearStart(z)
    decreases z - y
  {
    YearStep(z - 1);
    if y < z - 1 { YearStartsAscend(y, z - 1); }
  }

  /** A date lies inside its own year. */
  lemma OrdinalInYear(x: Date)
    requires x.Valid()
    ensures YearStart(x.y) <= Ordinal(x) < YearStart(x.y) + DaysInYear(x.y)
  {
    YearLength(x.y);
    MonthStartsAscend(x.y, x.m, 13);
  }

  /** Chronological order, field by field. */
  predicate Earlier(a: Date, b: Date) {
    a.y < b.y || (a.y == b.y && (a.m < b.m || (a.m == b.m && a.d < b.d)))
  }

  lemma EarlierOrdinal(a: Date, b: Date)
    requires a.Valid() && b.Valid() && Earlier(a, b)
    ensures Ordinal(a) < Ordinal(b)
  {
    if a.y < b.y {
      OrdinalInYear(a);
      OrdinalInYear(b);
      YearStartsAscend(a.y, b.y);
    } else if a.m < b.m {
      MonthStartsAscend(a.y, a.m, b.m);
    }
  }

  /** Ordinals order dates, and tell them apart. */
  lemma OrdinalOrder(a: Date, b: Date)
    requires a.Valid() && b.Valid()
    ensures Earlier(a, b) <==> Ordinal(a) < Ordinal(b)
    ensures Ordinal(a) == Ordinal(b) ==> a == b
  {
    if Earlier(a, b) { EarlierOrdinal(a, b); }
    if Earlier(b, a) { EarlierOrdinal(b, a); }
  }

  // --------------------------------------------------------------------------
  // Back from ordinals
  // --------------------------------------------------------------------------

  /** YearFromTime: the year whose days include `n`, searched from a guess. */
  function YearFrom(n: int, guess: int): (y: int)
    ensures YearStart(y) <= n < YearStart(y) + DaysInYear(y)
    decreases if n < YearStart(guess) then YearStart(guess) - n
              else if n >= YearStart(guess) + DaysInYear(guess) then n - YearStart(guess) else 0
  {
    YearStep(guess - 1);
    YearStep(guess);
    if n < YearStart(guess) then YearFrom(n, guess - 1)
    else if n >= YearStart(guess) + DaysInYear(guess) then YearFrom(n, guess + 1)
    else guess
  }

  function MonthFrom(y: int, k: int, m: int): (r: int)
    requires 1 <= m <= 12 && MonthStart(y, m) <= k < MonthStart(y, 13)
    ensures m <= r <= 12 && MonthStart(y, r) <= k < MonthStart(y, r) + MonthLength(y, r)
    decreases 12 - m
  {
    if k < MonthStart(y, m) + MonthLength(y, m) then m else MonthFrom(y, k, m + 1)
  }

  function FromOrdinal(n: int): (x: Date)
    ensures x.Valid() && Ordinal(x) == n
  {
    var y := YearFrom(n, 1970);
    YearLength(y);
    var m := MonthFrom(y, n - YearStart(y), 1);
    Date(y, m, n - YearStart(y) - MonthStart(y, m) + 1)
  }

  lemma FromOrdinalInverse(x: Date)
    requires x.Valid()
    ensures FromOrdinal(Ordinal(x)) == x
  {
    OrdinalOrder(FromOrdinal(Ordinal(x)), x);
  }

  lemma LeapRepeats(y: int)
    ensures Leap(y + 400) == Leap(y)
  {
    hide Multiple, Leap;
    LeapMeans(y);
    LeapMeans(y + 400);
    MultipleRepeats(y, 4, 100);
    MultipleRepeats(y, 100, 4);
    MultipleRepeats(y, 400, 1);
  }

  lemma MultipleRepeats(y: int, k: int, n: int)
    requires k > 0 && k * n == 400
    ensures Multiple(y + 400, k) == Multiple(y, k)
  {
    var q, r := y / k, y % k;
    assert y + 400 == k * (q + n) + r;
    UniqueRemainder(y + 400, k, q + n, r);
  }

  lemma UniqueRemainder(x: int, k: int, q: int, r: int)
    requires k > 0 && x == k * q + r && 0 <= r < k
    ensures x % k == r
  {
    var d := q - x / k;
    assert k * d == x % k - r;
    NoSmallMultiple(k, d);
  }

  lemma NoSmallMultiple(k: int, d: int)
    requires k > 0
    ensures -k < k * d < k ==> d == 0
  {
    if d > 0 { assert k * d >= k; } else if d < 0 { assert k * d <= -k; }
  }

  lemma YearStartRepeats(y: int)
    ensures YearStart(y + 400) == YearStart(y) + 146097
  {
    hide Quotient;
    QuotientRepeats4(y);
    QuotientRepeats100(y);
    QuotientRepeats400(y);
  }

  lemma QuotientRepeats4(y: int)
    ensures Quotient(y - 1569, 4) == Quotient(y - 1969, 4) + 100
  {}

  lemma QuotientRepeats100(y: int)
    ensures Quotient(y - 1501, 100) == Quotient(y - 1901, 100) + 4
  {}

  lemma QuotientRepeats400(y: int)
    ensures Quotient(y - 1201, 400) == Quotient(y - 1601, 400) + 1
  {}

  /** The calendar repeats every 400 years, which are 146097 days. */
  lemma LeapCycle(x: Date)
    requires x.Valid()
    ensures var later := Date(x.y + 400, x.m, x.d); later.Valid() && Ordinal(later) == Ordinal(x) + 146097
  {
    hide Leap, YearStart, MonthStart;
    LeapRepeats(x.y);
    MonthStartCycle(x.y, x.m);
    YearStartRepeats(x.y);
  }

  lemma {:induction false} MonthStartCycle(y: int, m: int)
    requires 1 <= m <= 13
    ensures MonthStart(y + 400, m) == MonthStart(y, m)
    decreases m
  {
    hide Leap;
    LeapRepeats(y);
    if m > 1 { MonthStartCycle(y, m - 1); }
  }

  // --------------------------------------------------------------------------
  // MakeDay
  // --------------------------------------------------------------------------

  /** MakeDay of section 21.4.1.13: months from 0 and days from 1 overflow either way. */
  function MakeDay(year: int, month: int, date: int): int {
    Ordinal(Date(year + month / 12, month % 12 + 1, 1)) + date - 1
  }

  lemma MakeDayInMonth(x: Date)
    requires x.Valid()
    ensures MakeDay(x.y, x.m - 1, x.d) == Ordinal(x)
  {
    hide Leap, YearStart, MonthStart, MonthLength;
  }

  /** Day 0 of the following month is the last day of this one. */
  lemma LastOfMonth(y: int, month: int)
    requires 0 <= month <= 11
    ensures FromOrdinal(MakeDay(y, month + 1, 0)) == Date(y, month + 1, MonthLength(y, month + 1))
  {
    hide FromOrdinal, Leap;
    var last := Date(y, month + 1, MonthLength(y, month + 1));
    FromOrdinalInverse(last);
    LastOrdinal(y, month);
  }

  lemma LastOrdinal(y: int, month: int)
    requires 0 <= month <= 11
    ensures MakeDay(y, month + 1, 0) == Ordinal(Date(y, month + 1, MonthLength(y, month + 1)))
  {
    hide YearStart, MonthLength, Leap;
    if month == 11 {
      YearStep(y);
      YearLength(y);
      assert MakeDay(y, 12, 0) == YearStart(y + 1) + MonthStart(y + 1, 1) - 1;
    } else {
      assert (month + 1) / 12 == 0 && (month + 1) % 12 == month + 1;
    }
  }
}
