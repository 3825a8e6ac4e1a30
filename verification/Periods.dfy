/**
 Billing periods on dates: advance whole months, clamping to the end of the target
 month. Annual terms are twelve months, so both periods are one rule with a stride.
 */
module Periods {
  import opened Calendar

  datatype Period = Annual | Monthly

  function Stride(p: Period): int { if p.Annual? then 12 else 1 }

  /** Months since year 0. */
  function MonthIndex(x: Date): int { x.y * 12 + x.m - 1 }

  function LengthAt(index: int): int { MonthLength(index / 12, index % 12 + 1) }

  function Min(a: int, b: int): int { if a <= b then a else b }

  /** The month `index`, on the given day or its last day if it is shorter. */
  function ClampedAt(index: int, d: int): Date {
    Date(index / 12, index % 12 + 1, Min(d, LengthAt(index)))
  }

  /** `Date.UTC` reads the years 0 to 99 as 1900 to 1999 (section 21.4.3.4 of ECMA-262). */
  function UtcYear(y: int): int { if 0 <= y <= 99 then 1900 + y else y }

  /** The date the code computes: its last day of the target month comes from `Date.UTC`. */
  function Advance(x: Date, p: Period): Date
    requires x.Valid()
  {
    var index := MonthIndex(x) + Stride(p);
    Date(index / 12, index % 12 + 1, Min(x.d, MonthLength(UtcYear(index / 12), index % 12 + 1)))
  }

  lemma UtcYearLeap(y: int)
    ensures Leap(UtcYear(y)) == Leap(y) <==> y != 0
  {}

  /**
   The two-digit-year reading is harmless with one exception: it is the intended clamp
   if and only if the target is not a day after the 28th in February of year 0.
   */
  lemma AdvanceIsClamped(x: Date, p: Period)
    requires x.Valid()
    ensures var index := MonthIndex(x) + Stride(p);
            Advance(x, p) == ClampedAt(index, x.d) <==> !(index == 1 && x.d >= 29)
  {
    var index := MonthIndex(x) + Stride(p);
    UtcYearLeap(index / 12);
    assert index == 1 <==> index / 12 == 0 && index % 12 + 1 == 2;
  }

  lemma IndexFields(x: Date)
    requires x.Valid()
    ensures MonthIndex(x) / 12 == x.y && MonthIndex(x) % 12 + 1 == x.m
  {}

  lemma AdvanceValid(x: Date, p: Period)
    requires x.Valid()
    ensures Advance(x, p).Valid() && MonthIndex(Advance(x, p)) == MonthIndex(x) + Stride(p)
  {
    UtcYearLeap((MonthIndex(x) + Stride(p)) / 12);
  }

  /** Every period ends strictly after it starts. */
  lemma AdvanceLater(x: Date, p: Period)
    requires x.Valid()
    ensures Advance(x, p).Valid() && Ordinal(x) < Ordinal(Advance(x, p))
  {
    AdvanceValid(x, p);
    IndexFields(x);
    IndexFields(Advance(x, p));
    hide Ordinal, MonthLength;
    OrdinalOrder(x, Advance(x, p));
  }

  /** A later start never ends earlier. */
  lemma AdvanceMonotone(a: Date, b: Date, p: Period)
    requires a.Valid() && b.Valid() && Ordinal(a) <= Ordinal(b)
    ensures Advance(a, p).Valid() && Advance(b, p).Valid() && Ordinal(Advance(a, p)) <= Ordinal(Advance(b, p))
  {
    AdvanceValid(a, p);
    AdvanceValid(b, p);
    OrdinalOrder(b, a);
    OrdinalOrder(Advance(b, p), Advance(a, p));
  }

  // --------------------------------------------------------------------------
  // Many periods
  // --------------------------------------------------------------------------

  function Repeat(x: Date, p: Period, n: nat): (r: Date)
    requires x.Valid()
    ensures r.Valid()
  {
    if n == 0 then x
    else
      AdvanceValid(Repeat(x, p, n - 1), p);
      Advance(Repeat(x, p, n - 1), p)
  }

  /** The shortest of the `n` months landed in after `index`; 31 when there are none. */
  function Shortest(index: int, p: Period, n: nat): int {
    if n == 0 then 31 else Min(Shortest(index, p, n - 1), LengthAt(index + n * Stride(p)))
  }

  lemma RepeatStep(x: Date, p: Period, n: nat)
    requires x.Valid() && n > 0 && MonthIndex(Repeat(x, p, n - 1)) >= 12
    ensures var y := Repeat(x, p, n - 1);
            && MonthIndex(Repeat(x, p, n)) == MonthIndex(y) + Stride(p)
            && Repeat(x, p, n).d == Min(y.d, LengthAt(MonthIndex(y) + Stride(p)))
  {
    var y := Repeat(x, p, n - 1);
    AdvanceValid(y, p);
    AdvanceIsClamped(y, p);
  }

  /**
   Closed form. After `n` periods the month index has advanced by exactly `n` strides,
   and the day is the first day clamped to the shortest month landed in on the way:
   clamping is permanent, and nothing else is ever lost.
   */
  lemma {:induction false} RepeatClosedForm(x: Date, p: Period, n: nat)
    requires x.Valid() && x.y >= 1
    ensures MonthIndex(Repeat(x, p, n)) == MonthIndex(x) + n * Stride(p)
    ensures Repeat(x, p, n).d == Min(x.d, Shortest(MonthIndex(x), p, n))
  {
    hide LengthAt, Repeat;
    if n == 0 {
      RepeatNone(x, p);
    } else {
      RepeatClosedForm(x, p, n - 1);
      StridesAdd(n, p);
      RepeatStep(x, p, n);
      hide MonthIndex, Stride, Shortest;
      ShortestStep(MonthIndex(x), p, n);
    }
  }

  lemma RepeatNone(x: Date, p: Period)
    requires x.Valid()
    ensures Repeat(x, p, 0) == x && x.d <= 31
  {}

  lemma ShortestStep(index: int, p: Period, n: nat)
    requires n > 0
    ensures Shortest(index, p, n) == Min(Shortest(index, p, n - 1), LengthAt(index + n * Stride(p)))
  {}

  lemma StridesAdd(n: nat, p: Period)
    requires n > 0
    ensures (n - 1) * Stride(p) + Stride(p) == n * Stride(p) && (n - 1) * Stride(p) >= 0
  {}

  /** So the order of the months does not matter to the day: a term on or before the 28th never moves. */
  lemma {:induction false} EarlyDaysNeverMove(x: Date, p: Period, n: nat)
    requires x.Valid() && x.y >= 1 && x.d <= 28
    ensures Repeat(x, p, n).d == x.d
  {
    RepeatClosedForm(x, p, n);
    ShortestAtLeast28(MonthIndex(x), p, n);
  }

  lemma {:induction false} ShortestAtLeast28(index: int, p: Period, n: nat)
    ensures Shortest(index, p, n) >= 28
  {
    if n > 0 { ShortestAtLeast28(index, p, n - 1); }
  }
}
