/**
 `addDays` and `addPeriod`: a Date object set field by field, then printed.
 */
module DateArithmetic {
  import opened Wrappers
  import opened Calendar
  import opened Periods
  import opened Dates

  // --------------------------------------------------------------------------
  // What they compute
  // --------------------------------------------------------------------------

  /** The day `count` days later; `None` when printing throws. */
  function DaysAfter(day: string, count: int): Option<string>
    requires IsDay(day)
  {
    IsoSlice(DayOf(day) + count)
  }

  /** The day one billing period later. */
  function PeriodAfter(day: string, p: Period): string
    requires IsDay(day)
  {
    PeriodInRange(day, p);
    IsoSlice(Ordinal(Advance(Fields(day), p))).value
  }

  /** Adding days is ordinal addition, and yields a day exactly while the year has four digits. */
  lemma DaysAfterExact(day: string, count: int)
    requires IsDay(day)
    ensures DaysAfter(day, count).Some? <==> InRange(DayOf(day) + count)
    ensures DaysAfter(day, count).Some? && IsDay(DaysAfter(day, count).value) <==> -719528 <= DayOf(day) + count < 2932897
    ensures DaysAfter(day, count).Some? && IsDay(DaysAfter(day, count).value) ==>
              DayOf(DaysAfter(day, count).value) == DayOf(day) + count
  {
    hide FromOrdinal, IsDay, IsoSlice;
    var n := DayOf(day) + count;
    FourDigitYears(n);
    if InRange(n) { IsoSliceIsDay(n); }
    assert IsoSlice(n).Some? <==> InRange(n) by { IsoSliceDefined(n); }
  }

  lemma IsoSliceDefined(n: int)
    ensures IsoSlice(n).Some? <==> InRange(n)
  {}

  /** Sums compose, in the string domain. */
  lemma DaysAfterComposes(day: string, a: int, b: int)
    requires IsDay(day) && DaysAfter(day, a).Some? && IsDay(DaysAfter(day, a).value)
    ensures DaysAfter(DaysAfter(day, a).value, b) == DaysAfter(day, a + b)
  {
    hide IsDay, IsoSlice;
    DaysAfterExact(day, a);
  }

  /** A shift is undone by the negated shift. */
  lemma DaysAfterUndone(day: string, a: int)
    requires IsDay(day) && DaysAfter(day, a).Some? && IsDay(DaysAfter(day, a).value)
    ensures DaysAfter(DaysAfter(day, a).value, -a) == Some(day)
  {
    hide FromOrdinal, IsoSlice;
    DaysAfterComposes(day, a, -a);
  }

  /** A period lands on a day exactly when its year still has four digits. */
  lemma PeriodAfterExact(day: string, p: Period)
    requires IsDay(day)
    ensures Fields(day).Valid()
    ensures IsDay(PeriodAfter(day, p)) <==> Advance(Fields(day), p).y <= 9999
    ensures IsDay(PeriodAfter(day, p)) ==> Fields(PeriodAfter(day, p)) == Advance(Fields(day), p)
  {
    hide FromOrdinal, Ordinal, IsDay, IsoSlice, Show, Fields, Shaped, MonthLength, InRange;
    IsDayExact(day);
    var x := Advance(Fields(day), p);
    AdvanceValid(Fields(day), p);
    FromOrdinalInverse(x);
    PeriodInRange(day, p);
    IsoSliceIsDay(Ordinal(x));
    IsoSliceDefined(Ordinal(x));
    IsDayExact(PeriodAfter(day, p));
    AdvanceYears(Fields(day), p);
  }

  lemma AdvanceYears(x: Date, p: Period)
    requires x.Valid()
    ensures x.y <= Advance(x, p).y <= x.y + 1
  {}

  lemma PeriodInRange(day: string, p: Period)
    requires IsDay(day)
    ensures Fields(day).Valid() && Advance(Fields(day), p).Valid() && InRange(Ordinal(Advance(Fields(day), p)))
  {
    hide FromOrdinal, Ordinal, IsDay, IsoSlice, Show, Shaped, MonthLength, MonthStart;
    IsDayExact(day);
    var x := Advance(Fields(day), p);
    AdvanceValid(Fields(day), p);
    AdvanceYears(Fields(day), p);
    OrdinalInYear(x);
    assert YearStart(0) == -719528 && YearStart(10001) == 2933263;
    if x.y > 0 { YearStartsAscend(0, x.y); }
    YearStartsAscend(x.y, 10001);
  }

  /** A term always ends, as a string, strictly after it starts. */
  lemma PeriodAfterLater(day: string, p: Period)
    requires IsDay(day) && IsDay(PeriodAfter(day, p))
    ensures Less(day, PeriodAfter(day, p))
  {
    hide FromOrdinal, Ordinal, IsDay, IsoSlice, Show, Fields, Less;
    PeriodAfterExact(day, p);
    IsDayExact(day);
    IsDayExact(PeriodAfter(day, p));
    AdvanceLater(Fields(day), p);
    LexicographicIsChronological(day, PeriodAfter(day, p));
  }

  /** A later start never ends earlier. */
  lemma PeriodAfterMonotone(a: string, b: string, p: Period)
    requires IsDay(a) && IsDay(b) && !Less(b, a)
    requires IsDay(PeriodAfter(a, p)) && IsDay(PeriodAfter(b, p))
    ensures !Less(PeriodAfter(b, p), PeriodAfter(a, p))
  {
    hide FromOrdinal, Ordinal, IsDay, IsoSlice, Show, Fields, Less;
    PeriodAfterExact(a, p);
    PeriodAfterExact(b, p);
    IsDayExact(a);
    IsDayExact(b);
    IsDayExact(PeriodAfter(a, p));
    IsDayExact(PeriodAfter(b, p));
    LexicographicIsChronological(b, a);
    AdvanceMonotone(Fields(a), Fields(b), p);
    LexicographicIsChronological(PeriodAfter(b, p), PeriodAfter(a, p));
  }

  // --------------------------------------------------------------------------
  // How they compute it
  // --------------------------------------------------------------------------

  /** A UTC date object whose time is midnight; `time` counts days. */
  class JsDate {
    var time: int

    constructor (time: int)
      ensures this.time == time
    {
      this.time := time;
    }

    function GetUTCFullYear(): int reads this { FromOrdinal(time).y }

    function GetUTCMonth(): int reads this { FromOrdinal(time).m - 1 }

    function GetUTCDate(): int reads this { FromOrdinal(time).d }

    /** Moving the day of the month moves the day by the difference, across any month end. */
    method SetUTCDate(date: int)
      modifies this
      ensures time == old(time) - old(GetUTCDate()) + date
    {
      MakeDayInMonth(FromOrdinal(time));
      MakeDayAdds(GetUTCFullYear(), GetUTCMonth(), GetUTCDate(), date);
      time := MakeDay(GetUTCFullYear(), GetUTCMonth(), date);
    }

    method SetUTCMonth(month: int)
      modifies this
      ensures time == MakeDay(old(GetUTCFullYear()), month, old(GetUTCDate()))
    {
      time := MakeDay(GetUTCFullYear(), month, GetUTCDate());
    }

    method SetUTCFullYear(year: int)
      modifies this
      ensures time == MakeDay(year, old(GetUTCMonth()), old(GetUTCDate()))
    {
      time := MakeDay(year, GetUTCMonth(), GetUTCDate());
    }
  }

  lemma MakeDayAdds(y: int, month: int, d: int, e: int)
    ensures MakeDay(y, month, e) == MakeDay(y, month, d) - d + e
  {}

  /** The first of a month, by any month count, is that month's first day. */
  lemma FirstOfMonth(y: int, month: int)
    ensures var first := Date(y + month / 12, month % 12 + 1, 1);
            first.Valid() && FromOrdinal(MakeDay(y, month, 1)) == first
  {
    FromOrdinalInverse(Date(y + month / 12, month % 12 + 1, 1));
  }

  method AddDays(day: string, count: int) returns (r: Option<string>)
    requires IsDay(day)
    ensures r == DaysAfter(day, count)
  {
    hide FromOrdinal, IsDay, IsoSlice;
    var date := new JsDate(DayOf(day));
    date.SetUTCDate(date.GetUTCDate() + count);
    r := IsoSlice(date.time);
  }

  method AddPeriod(day: string, p: Period) returns (r: string)
    requires IsDay(day)
    ensures r == PeriodAfter(day, p)
  {
    hide FromOrdinal, IsDay, IsoSlice, Show, Shaped, MonthLength, MakeDay, Ordinal;
    IsDayExact(day);
    ghost var x := Fields(day);
    var date := new JsDate(DayOf(day));
    var dayOfMonth := date.GetUTCDate();
    var target := new JsDate(date.time);
    target.SetUTCDate(1);
    FirstDay(x);
    if p == Annual {
      target.SetUTCFullYear(target.GetUTCFullYear() + 1);
      FirstOfMonth(x.y + 1, x.m - 1);
    } else {
      target.SetUTCMonth(target.GetUTCMonth() + 1);
      FirstOfMonth(x.y, x.m);
    }
    AdvancedMonth(x, p);
    ghost var first := FromOrdinal(target.time);
    var utc := new JsDate(MakeDay(UtcYear(target.GetUTCFullYear()), target.GetUTCMonth() + 1, 0));
    LastOfMonth(UtcYear(first.y), first.m - 1);
    var lastOfTarget := utc.GetUTCDate();
    target.SetUTCDate(Min(dayOfMonth, lastOfTarget));
    SameMonth(first, Min(dayOfMonth, lastOfTarget), target.time, Advance(x, p));
    PeriodInRange(day, p);
    IsoSliceDefined(target.time);
    r := IsoSlice(target.time).value;
  }

  lemma FirstDay(x: Date)
    requires x.Valid()
    ensures FromOrdinal(Ordinal(x) - x.d + 1) == Date(x.y, x.m, 1)
  {
    FromOrdinalInverse(Date(x.y, x.m, 1));
  }

  lemma AdvancedMonth(x: Date, p: Period)
    requires x.Valid()
    ensures Advance(x, p).y == (if p == Annual then x.y + 1 else x.y + x.m / 12)
    ensures Advance(x, p).m == (if p == Annual then x.m else x.m % 12 + 1)
    ensures x.m / 12 == (if x.m == 12 then 1 else 0) && (x.m - 1) / 12 == 0 && (x.m - 1) % 12 == x.m - 1
  {}

  lemma SameMonth(first: Date, d: int, time: int, x: Date)
    requires first.Valid() && first.d == 1 && FromOrdinal(Ordinal(first)) == first
    requires time == Ordinal(first) - 1 + d && x == Date(first.y, first.m, d)
    ensures time == Ordinal(x)
  {}

  // --------------------------------------------------------------------------
  // The day a payment was received
  // --------------------------------------------------------------------------

  datatype PaidOnProblem = NotADay | InTheFuture

  function ResolvePaidOn(provided: Option<string>, now: string): Result<string, PaidOnProblem> {
    if provided.None? then Ok(now)
    else if !IsDay(provided.value) then Err(NotADay)
    else if Less(now, provided.value) then Err(InTheFuture)
    else Ok(provided.value)
  }

  /** A payment is dated on a real day that has come, and every such day is accepted as given. */
  lemma PaidOnHasHappened(provided: Option<string>, now: string, day: string)
    requires IsDay(now)
    ensures ResolvePaidOn(provided, now) == Ok(day) <==>
            if provided.None? then day == now else day == provided.value && IsDay(day) && DayOf(day) <= DayOf(now)
  {
    hide FromOrdinal, IsDay, Less;
    if provided.Some? && IsDay(provided.value) { LexicographicIsChronological(now, provided.value); }
  }
}
