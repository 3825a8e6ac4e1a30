/**
 Calendar days as the ten-character strings the store holds, and the arithmetic on
 them. Strings compare by code unit, as `<` does in the source.
 */
module Dates {
  import opened Wrappers
  import opened Calendar
  import opened Decimals
  import opened Periods

  // --------------------------------------------------------------------------
  // Strings
  // --------------------------------------------------------------------------

  /** `a < b` on strings. */
  predicate Less(a: string, b: string) {
    if b == "" then false
    else if a == "" then true
    else if a[0] != b[0] then a[0] < b[0]
    else Less(a[1..], b[1..])
  }

  function Two(n: int): string
    requires 0 <= n <= 99
  {
    [DigitChar(n / 10), DigitChar(n % 10)]
  }

  function Four(n: int): string
    requires 0 <= n <= 9999
  {
    Two(n / 100) + Two(n % 100)
  }

  function ValueTwo(s: string): (n: int)
    requires |s| == 2 && IsDigit(s[0]) && IsDigit(s[1])
    ensures 0 <= n <= 99
  {
    10 * DigitValue(s[0]) + DigitValue(s[1])
  }

  /** `YYYY-MM-DD` for a year of four digits. */
  function Show(x: Date): (s: string)
    requires 0 <= x.y <= 9999 && 0 <= x.m <= 99 && 0 <= x.d <= 99
    ensures |s| == 10
  {
    Four(x.y) + "-" + Two(x.m) + "-" + Two(x.d)
  }

  /** The pattern `^\d{4}-\d{2}-\d{2}$`. */
  predicate Shaped(s: string) {
    && |s| == 10 && s[4] == '-' && s[7] == '-'
    && IsDigit(s[0]) && IsDigit(s[1]) && IsDigit(s[2]) && IsDigit(s[3])
    && IsDigit(s[5]) && IsDigit(s[6]) && IsDigit(s[8]) && IsDigit(s[9])
  }

  /** What the digits say, whether or not there is such a day. */
  function Fields(s: string): (x: Date)
    requires Shaped(s)
    ensures 0 <= x.y <= 9999 && 0 <= x.m <= 99 && 0 <= x.d <= 99
  {
    Date(100 * ValueTwo(s[..2]) + ValueTwo(s[2..4]), ValueTwo(s[5..7]), ValueTwo(s[8..]))
  }

  lemma DigitBack(c: char)
    requires IsDigit(c)
    ensures DigitChar(DigitValue(c)) == c
  {}

  lemma TwoBack(s: string)
    requires |s| == 2 && IsDigit(s[0]) && IsDigit(s[1])
    ensures Two(ValueTwo(s)) == s
  {
    hide DigitChar, DigitValue, IsDigit;
    DigitBack(s[0]);
    DigitBack(s[1]);
    assert ValueTwo(s) / 10 == DigitValue(s[0]) && ValueTwo(s) % 10 == DigitValue(s[1]);
  }

  lemma Hundreds(a: int, b: int)
    requires 0 <= b < 100
    ensures (100 * a + b) / 100 == a && (100 * a + b) % 100 == b
  {}

  lemma ShowFields(s: string)
    requires Shaped(s)
    ensures Show(Fields(s)) == s
  {
    hide ValueTwo, Two, IsDigit;
    Hundreds(ValueTwo(s[..2]), ValueTwo(s[2..4]));
    TwoBack(s[..2]);
    TwoBack(s[2..4]);
    TwoBack(s[5..7]);
    TwoBack(s[8..]);
    assert s == s[..2] + s[2..4] + "-" + s[5..7] + "-" + s[8..];
  }

  lemma FieldsShow(x: Date)
    requires 0 <= x.y <= 9999 && 0 <= x.m <= 99 && 0 <= x.d <= 99
    ensures Shaped(Show(x)) && Fields(Show(x)) == x
  {
    var s := Show(x);
    assert s[..2] == Two(x.y / 100) && s[2..4] == Two(x.y % 100) && s[5..7] == Two(x.m) && s[8..] == Two(x.d);
  }

  // --------------------------------------------------------------------------
  // Instants and back
  // --------------------------------------------------------------------------

  /** `new Date(value + "T00:00:00Z")`: no instant for a month or day no month has. */
  function ParseInstant(s: string): Option<int>
    requires Shaped(s)
  {
    var x := Fields(s);
    if 1 <= x.m <= 12 && 1 <= x.d <= 31 then Some(MakeDay(x.y, x.m - 1, x.d)) else None
  }

  /** Time values reach 8.64e15 ms either side of the epoch: a hundred million days. */
  predicate InRange(n: int) { -100000000 <= n <= 100000000 }

  /**
   `toISOString().slice(0, 10)`. Outside years 0 to 9999 the year has a sign and six
   digits, so the slice ends inside the month; outside the range of time values it throws.
   */
  function IsoSlice(n: int): Option<string> {
    if !InRange(n) then None
    else
      YearBounds(n);
      var x := FromOrdinal(n);
      if 0 <= x.y <= 9999 then Some(Show(x))
      else
        var (sign, y) := if x.y < 0 then ("-", -x.y) else ("+", x.y);
        Some(sign + Two(y / 10000) + Four(y % 10000) + "-" + Two(x.m))
  }

  lemma YearBounds(n: int)
    requires InRange(n)
    ensures -999999 <= FromOrdinal(n).y <= 999999
  {
    hide FromOrdinal, MonthStart, MonthLength;
    var x := FromOrdinal(n);
    OrdinalInYear(x);
    assert YearStart(-999998) < -100000000 && YearStart(999999) > 100000000;
    if x.y < -999999 { YearStartsAscend(x.y, -999998); }
    if x.y > 999999 { YearStartsAscend(999999, x.y); }
  }

  /** The pattern matches and the instant prints back as the same string. */
  predicate IsDay(s: string) {
    Shaped(s) && ParseInstant(s).Some? && IsoSlice(ParseInstant(s).value) == Some(s)
  }

  function DayOf(s: string): (n: int)
    requires IsDay(s)
  {
    ParseInstant(s).value
  }

  lemma FourDigitYears(n: int)
    ensures 0 <= FromOrdinal(n).y <= 9999 <==> -719528 <= n < 2932897
    ensures -719528 <= n < 2932897 ==> InRange(n)
  {
    hide FromOrdinal, MonthStart, MonthLength;
    var x := FromOrdinal(n);
    OrdinalInYear(x);
    assert YearStart(0) == -719528 && YearStart(10000) == 2932897;
    if x.y < 0 { YearStartsAscend(x.y, 0); }
    if x.y > 0 { YearStartsAscend(0, x.y); }
    if x.y < 10000 { YearStartsAscend(x.y, 10000); }
    if x.y > 10000 { YearStartsAscend(10000, x.y); }
  }

  lemma OtherYearsAreNoDay(n: int)
    requires InRange(n) && !(0 <= FromOrdinal(n).y <= 9999)
    ensures !Shaped(IsoSlice(n).value)
  {
    hide FromOrdinal;
    YearBounds(n);
    var x := FromOrdinal(n);
    assert IsoSlice(n).value[0] == '-' || IsoSlice(n).value[0] == '+';
  }

  lemma PrintedDayParses(n: int)
    requires 0 <= FromOrdinal(n).y <= 9999 && InRange(n)
    ensures IsoSlice(n) == Some(Show(FromOrdinal(n)))
    ensures Shaped(Show(FromOrdinal(n))) && ParseInstant(Show(FromOrdinal(n))) == Some(n)
  {
    hide FromOrdinal, MakeDay, Show, Fields, Shaped;
    FieldsShow(FromOrdinal(n));
    MakeDayInMonth(FromOrdinal(n));
  }

  /** Printing an ordinal gives a day string exactly for the years of four digits. */
  lemma IsoSliceIsDay(n: int)
    requires InRange(n)
    ensures IsDay(IsoSlice(n).value) <==> 0 <= FromOrdinal(n).y <= 9999
    ensures IsDay(IsoSlice(n).value) ==> DayOf(IsoSlice(n).value) == n
  {
    hide FromOrdinal, ParseInstant, Shaped;
    if 0 <= FromOrdinal(n).y <= 9999 { PrintedDayParses(n); } else { OtherYearsAreNoDay(n); }
  }

  /** The round trip rejects exactly the strings that name no day. */
  lemma IsDayExact(s: string)
    ensures IsDay(s) <==> Shaped(s) && Fields(s).Valid()
    ensures IsDay(s) ==> DayOf(s) == Ordinal(Fields(s)) && FromOrdinal(DayOf(s)) == Fields(s)
  {
    hide FromOrdinal, Ordinal, MakeDay, MonthLength, Show, Shaped, Fields, IsoSlice;
    if Shaped(s) {
      if Fields(s).Valid() { RealDaysRoundTrip(s); }
      if IsDay(s) { PrintedDatesExist(s); RealDaysRoundTrip(s); }
    }
  }

  lemma RealDaysRoundTrip(s: string)
    requires Shaped(s) && Fields(s).Valid()
    ensures IsDay(s) && DayOf(s) == Ordinal(Fields(s)) && FromOrdinal(DayOf(s)) == Fields(s)
  {
    hide FromOrdinal, Ordinal, MakeDay, Show, Shaped, Fields;
    var x := Fields(s);
    ShowFields(s);
    MakeDayInMonth(x);
    FromOrdinalInverse(x);
    FourDigitYears(Ordinal(x));
  }

  lemma PrintedDatesExist(s: string)
    requires IsDay(s)
    ensures Fields(s).Valid()
  {
    hide FromOrdinal, Fields, ParseInstant;
    var n := ParseInstant(s).value;
    assert IsoSlice(n) == Some(s);
    if !(0 <= FromOrdinal(n).y <= 9999) { OtherYearsAreNoDay(n); }
    FieldsShow(FromOrdinal(n));
  }

  // --------------------------------------------------------------------------
  // Lexicographic order is chronological order
  // --------------------------------------------------------------------------

  lemma {:induction false} LessSplit(a: string, b: string, c: string, d: string)
    requires |a| == |c|
    ensures Less(a + b, c + d) <==> Less(a, c) || (a == c && Less(b, d))
  {
    if a == "" {
      assert a + b == b && c + d == d;
    } else {
      assert (a + b)[1..] == a[1..] + b && (c + d)[1..] == c[1..] + d;
      if a[0] == c[0] { LessSplit(a[1..], b, c[1..], d); }
    }
  }

  lemma DigitOrder(m: int, n: int)
    requires 0 <= m <= 9 && 0 <= n <= 9
    ensures DigitChar(m) < DigitChar(n) <==> m < n
    ensures DigitChar(m) == DigitChar(n) <==> m == n
    ensures Less([DigitChar(m)], [DigitChar(n)]) <==> m < n
  {}

  /** On all strings, days or not. */
  lemma {:induction false} LessIsOrder(a: string, b: string, c: string)
    ensures !Less(a, a)
    ensures Less(a, b) ==> !Less(b, a)
    ensures a == b || Less(a, b) || Less(b, a)
    ensures Less(a, b) && Less(b, c) ==> Less(a, c)
    decreases |a| + |b| + |c|
  {
    if a != "" {
      LessIsOrder(a[1..], if b == "" then "" else b[1..], if c == "" then "" else c[1..]);
      if b != "" { assert a == [a[0]] + a[1..] && b == [b[0]] + b[1..]; }
    }
  }

  lemma LessTwo(m: int, n: int)
    requires 0 <= m <= 99 && 0 <= n <= 99
    ensures Less(Two(m), Two(n)) <==> m < n
    ensures Two(m) == Two(n) <==> m == n
  {
    var a, b := Two(m), Two(n);
    assert a[1..] == [DigitChar(m % 10)] && b[1..] == [DigitChar(n % 10)];
    DigitOrder(m / 10, n / 10);
    DigitOrder(m % 10, n % 10);
    assert a == b ==> a[0] == b[0] && a[1] == b[1];
  }

  lemma LessFour(m: int, n: int)
    requires 0 <= m <= 9999 && 0 <= n <= 9999
    ensures Less(Four(m), Four(n)) <==> m < n
    ensures Four(m) == Four(n) <==> m == n
  {
    LessSplit(Two(m / 100), Two(m % 100), Two(n / 100), Two(n % 100));
    LessTwo(m / 100, n / 100);
    LessTwo(m % 100, n % 100);
    assert Four(m) == Four(n) ==> Four(m)[..2] == Four(n)[..2] && Four(m)[2..] == Four(n)[2..];
  }

  lemma LessShow(x: Date, y: Date)
    requires 0 <= x.y <= 9999 && 0 <= x.m <= 99 && 0 <= x.d <= 99
    requires 0 <= y.y <= 9999 && 0 <= y.m <= 99 && 0 <= y.d <= 99
    ensures Less(Show(x), Show(y)) <==> Earlier(x, y)
  {
    var xmd, ymd := Two(x.m) + ("-" + Two(x.d)), Two(y.m) + ("-" + Two(y.d));
    assert Show(x) == Four(x.y) + ("-" + xmd) && Show(y) == Four(y.y) + ("-" + ymd);
    LessSplit(Four(x.y), "-" + xmd, Four(y.y), "-" + ymd);
    LessSplit("-", xmd, "-", ymd);
    LessSplit(Two(x.m), "-" + Two(x.d), Two(y.m), "-" + Two(y.d));
    LessSplit("-", Two(x.d), "-", Two(y.d));
    LessFour(x.y, y.y);
    LessTwo(x.m, y.m);
    LessTwo(x.d, y.d);
    assert !Less("-", "-");
  }

  /** On day strings `<` is chronological, and equal days are equal strings. */
  lemma LexicographicIsChronological(a: string, b: string)
    requires IsDay(a) && IsDay(b)
    ensures Less(a, b) <==> DayOf(a) < DayOf(b)
    ensures a == b <==> DayOf(a) == DayOf(b)
  {
    hide FromOrdinal, Ordinal, IsDay, Less, Two, Four, Show;
    IsDayExact(a);
    IsDayExact(b);
    ShowFields(a);
    ShowFields(b);
    LessShow(Fields(a), Fields(b));
    OrdinalOrder(Fields(a), Fields(b));
  }
}
