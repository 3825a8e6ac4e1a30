/**
 The renewal rule: a pure function of a membership, its tier, the invoice for the term
 being billed, and the day.
 */
module Renewal {
  import opened Wrappers
  import opened Calendar
  import opened Periods
  import opened Dates
  import opened DateArithmetic
  import opened Kinds

  datatype Billed = Billed(spec: InvoiceSpec, status: Option<InvoiceStatus>)

  datatype Template = DuesReminder | DuesReceipt

  datatype Notice = Notice(template: Template, invoice: string)

  datatype Raised = Raised(name: string, spec: InvoiceSpec)

  datatype Plan = Plan(invoice: Option<Raised>, renewTo: Option<MembershipSpec>, notice: Option<Notice>,
                       status: MembershipStatus)

  function Situation(state: MembershipState): MembershipStatus {
    MembershipStatus(state, None, None, None, None)
  }

  function Only(status: MembershipStatus): Option<Plan> { Some(Plan(None, None, None, status)) }

  /** The invoice's name, and therefore its identity. */
  function InvoiceName(membership: string, periodStart: string): string {
    membership + "-" + periodStart
  }

  function Word(p: Period): string { if p.Annual? then "annual" else "monthly" }

  function NotRegistered(tier: string): string { "tier '" + tier + "' is not registered" }

  function MustNotEnd(tier: string): string {
    "tier '" + tier + "' is lifetime, so this membership must not carry endsOn"
  }

  function MustEnd(tier: string, p: Period): string {
    "tier '" + tier + "' bills " + Word(p) + ", so this membership needs endsOn"
  }

  function StateOf(invoice: Billed): InvoiceState {
    if invoice.status.Some? then invoice.status.value.state else Open
  }

  /** `evaluate`; `None` when the due date cannot be printed and the rule throws. */
  function Evaluate(name: string, m: MembershipSpec, tier: Option<TierSpec>, invoice: Option<Billed>, today: string)
    : Option<Plan>
    requires m.endsOn.Some? ==> IsDay(m.endsOn.value)
  {
    if tier.None? then
      Only(Situation(Invalid).(problem := Some(NotRegistered(m.tier))))
    else if tier.value.period.Lifetime? then
      if m.endsOn.Some? then
        Only(Situation(Invalid).(problem := Some(MustNotEnd(m.tier))))
      else
        Only(Situation(Active))
    else if m.endsOn.None? then
      Only(Situation(Invalid).(problem := Some(MustEnd(m.tier, tier.value.period.period))))
    else
      var endsOn := m.endsOn.value;
      if Less(today, endsOn) then
        Only(Situation(Active).(renewsOn := Some(endsOn)))
      else if !m.autoRenew then
        Only(Situation(Lapsed).(lapsedOn := Some(endsOn)))
      else
        var periodEnd := PeriodAfter(endsOn, tier.value.period.period);
        var invoiceName := InvoiceName(name, endsOn);
        if invoice.None? then
          var due := DaysAfter(endsOn, tier.value.graceDays);
          if due.None? then None
          else
            Some(Plan(
              Some(Raised(invoiceName, InvoiceSpec(name, m.member, m.tier, tier.value.duesCents, endsOn, periodEnd, due.value))),
              None,
              Some(Notice(DuesReminder, invoiceName)),
              Situation(Pending).(currentInvoice := Some(invoiceName), renewsOn := Some(periodEnd))))
        else
          var billed := invoice.value.spec;
          match StateOf(invoice.value)
          case Paid =>
            Some(Plan(
              None,
              Some(m.(startsOn := endsOn, endsOn := Some(billed.periodEnd))),
              Some(Notice(DuesReceipt, invoiceName)),
              Situation(Active).(renewsOn := Some(billed.periodEnd))))
          case Void =>
            Only(Situation(Lapsed).(lapsedOn := Some(endsOn), currentInvoice := Some(invoiceName)))
          case Open =>
            if Less(billed.dueOn, today) then
              Only(Situation(Lapsed).(lapsedOn := Some(billed.dueOn), currentInvoice := Some(invoiceName)))
            else
              Only(Situation(Pending).(currentInvoice := Some(invoiceName), renewsOn := Some(billed.periodEnd)))
  }

  // --------------------------------------------------------------------------
  // The policy, read from its outcomes
  // --------------------------------------------------------------------------

  /** Tier and term disagree, or there is no tier. */
  predicate Misconfigured(m: MembershipSpec, tier: Option<TierSpec>) {
    tier.None? || tier.value.period.Lifetime? == m.endsOn.Some?
  }

  /** The term has run out and the membership asked to go on. */
  predicate Renewing(m: MembershipSpec, tier: Option<TierSpec>, today: string) {
    !Misconfigured(m, tier) && m.endsOn.Some? && !Less(today, m.endsOn.value) && m.autoRenew
  }

  /**
   When each state is reported: the decision table a board would approve, one line per
   state instead of one per branch.
   */
  lemma StateTable(name: string, m: MembershipSpec, tier: Option<TierSpec>, invoice: Option<Billed>, today: string)
    requires m.endsOn.Some? ==> IsDay(m.endsOn.value)
    requires Evaluate(name, m, tier, invoice, today).Some?
    ensures var state := Evaluate(name, m, tier, invoice, today).value.status.state;
            var renewing := Renewing(m, tier, today);
            var over := !Misconfigured(m, tier) && m.endsOn.Some? && !Less(today, m.endsOn.value);
            && (state == Invalid <==> Misconfigured(m, tier))
            && (state == Active <==>
                  !Misconfigured(m, tier) && (over ==> renewing && invoice.Some? && StateOf(invoice.value) == Paid))
            && (state == Pending <==> renewing && (invoice.Some? ==>
                  StateOf(invoice.value) == Open && !Less(invoice.value.spec.dueOn, today)))
            && (state == Lapsed <==> over && (renewing ==>
                  && invoice.Some?
                  && (StateOf(invoice.value) == Void ||
                      (StateOf(invoice.value) == Open && Less(invoice.value.spec.dueOn, today)))))
  {
    hide IsDay, Less, PeriodAfter, DaysAfter;
  }

  /** When each write is planned, what it carries, and that a plan never makes two. */
  lemma WriteTable(name: string, m: MembershipSpec, tier: Option<TierSpec>, invoice: Option<Billed>, today: string)
    requires m.endsOn.Some? ==> IsDay(m.endsOn.value)
    requires Evaluate(name, m, tier, invoice, today).Some?
    ensures var plan := Evaluate(name, m, tier, invoice, today).value;
            && (plan.invoice.Some? <==> Renewing(m, tier, today) && invoice.None?)
            && (plan.renewTo.Some? <==> Renewing(m, tier, today) && invoice.Some? && StateOf(invoice.value) == Paid)
            && (plan.notice.Some? <==> plan.invoice.Some? || plan.renewTo.Some?)
            && (plan.notice.Some? ==> plan.notice.value.template == (if plan.invoice.Some? then DuesReminder else DuesReceipt)
                                      && plan.notice.value.invoice == InvoiceName(name, m.endsOn.value))
            && (plan.invoice.Some? ==>
                  var raised := plan.invoice.value;
                  && raised.name == InvoiceName(name, m.endsOn.value)
                  && raised.spec.periodStart == m.endsOn.value
                  && raised.spec.periodEnd == PeriodAfter(m.endsOn.value, tier.value.period.period)
                  && Some(raised.spec.dueOn) == DaysAfter(m.endsOn.value, tier.value.graceDays)
                  && raised.spec.membership == name && raised.spec.member == m.member && raised.spec.tier == m.tier
                  && raised.spec.amountCents == tier.value.duesCents
                  && plan.status.currentInvoice == Some(raised.name) && plan.status.renewsOn == Some(raised.spec.periodEnd))
            && (plan.renewTo.Some? ==>
                  && plan.renewTo.value.startsOn == m.endsOn.value
                  && plan.renewTo.value.endsOn == Some(invoice.value.spec.periodEnd)
                  && plan.renewTo.value.member == m.member && plan.renewTo.value.tier == m.tier
                  && plan.renewTo.value.autoRenew
                  && plan.status.renewsOn == plan.renewTo.value.endsOn)
  {
    hide IsDay, Less, PeriodAfter, DaysAfter;
  }

  // --------------------------------------------------------------------------
  // What the dates of a status mean, from what the rule says on other days
  // --------------------------------------------------------------------------

  /** Which fields a status carries, and what it names. */
  lemma StatusFields(name: string, m: MembershipSpec, tier: Option<TierSpec>, invoice: Option<Billed>, today: string)
    requires m.endsOn.Some? ==> IsDay(m.endsOn.value)
    requires Evaluate(name, m, tier, invoice, today).Some?
    ensures var plan := Evaluate(name, m, tier, invoice, today).value;
            && (plan.status.lapsedOn.Some? <==> plan.status.state == Lapsed)
            && (plan.status.renewsOn.Some? <==> plan.status.state == Pending || (plan.status.state == Active && m.endsOn.Some?))
            && (plan.status.problem.Some? <==> plan.status.state == Invalid)
            && (plan.status.currentInvoice.Some? <==> Renewing(m, tier, today) && plan.renewTo.None?)
            && (plan.status.currentInvoice.Some? ==>
                  plan.status.currentInvoice.value == name + "-" + m.endsOn.value)
  {
    hide IsDay, Less, PeriodAfter, DaysAfter, NotRegistered, MustNotEnd, MustEnd;
  }

  /** A running term says when it ends: exactly the days before read as this one does. */
  lemma RunsUntil(
      name: string, m: MembershipSpec, tier: Option<TierSpec>, invoice: Option<Billed>, today: string, day: string)
    requires m.endsOn.Some? && IsDay(m.endsOn.value) && !Misconfigured(m, tier) && Less(today, m.endsOn.value)
    ensures Evaluate(name, m, tier, invoice, today).Some?
    ensures var status := Evaluate(name, m, tier, invoice, today).value.status;
            && status.state == Active && status.renewsOn.Some?
            && (Evaluate(name, m, tier, invoice, day) == Some(Plan(None, None, None, status)) <==>
                  Less(day, status.renewsOn.value))
  {
    hide IsDay, PeriodAfter, DaysAfter;
    LessIsOrder(today, m.endsOn.value, day);
  }

  /** A term that ran out for good: `lapsedOn` is the first day that was not active, whatever the day it is read. */
  lemma LapsedSince(
      name: string, m: MembershipSpec, tier: Option<TierSpec>, invoice: Option<Billed>, today: string, day: string)
    requires m.endsOn.Some? && IsDay(m.endsOn.value) && !Misconfigured(m, tier) && !Less(today, m.endsOn.value)
    requires !m.autoRenew || (invoice.Some? && StateOf(invoice.value) == Void)
    ensures Evaluate(name, m, tier, invoice, today).Some? && Evaluate(name, m, tier, invoice, day).Some?
    ensures var status := Evaluate(name, m, tier, invoice, today).value.status;
            var other := Evaluate(name, m, tier, invoice, day).value.status;
            && status.state == Lapsed && status.lapsedOn.Some?
            && (Less(day, status.lapsedOn.value) <==> other.state == Active)
            && (!Less(day, status.lapsedOn.value) <==> other == status)
  {
    hide IsDay, PeriodAfter, DaysAfter;
  }

  /**
   An open invoice that went unpaid: from the end of the term the membership is pending up
   to and including the day it is said to have lapsed on, and lapsed with that very day
   on every day after.
   */
  lemma OverdueSince(name: string, m: MembershipSpec, tier: Option<TierSpec>, billed: Billed, today: string, day: string)
    requires m.endsOn.Some? && IsDay(m.endsOn.value) && Renewing(m, tier, today) && StateOf(billed) == Open
    requires Evaluate(name, m, tier, Some(billed), today).value.status.state == Lapsed
    requires !Less(day, m.endsOn.value)
    ensures var status := Evaluate(name, m, tier, Some(billed), today).value.status;
            && status.lapsedOn.Some? && status.lapsedOn.value in {billed.spec.dueOn, m.endsOn.value}
            && Evaluate(name, m, tier, Some(billed), day).Some?
            && var other := Evaluate(name, m, tier, Some(billed), day).value.status;
               && (Less(status.lapsedOn.value, day) <==> other == status)
               && (!Less(status.lapsedOn.value, day) <==> other.state == Pending)
  {
    hide IsDay, PeriodAfter, DaysAfter;
    LessIsOrder(billed.spec.dueOn, m.endsOn.value, billed.spec.dueOn);
  }

  /**
   A pending membership says where payment leads: once its invoice, raised now or found
   open, is paid, the renewed term ends on the day it renews on.
   */
  lemma PaymentKeepsPromise(
      name: string, m: MembershipSpec, tier: Option<TierSpec>, invoice: Option<Billed>, today: string, paid: InvoiceStatus)
    requires m.endsOn.Some? && IsDay(m.endsOn.value) && Evaluate(name, m, tier, invoice, today).Some?
    requires Evaluate(name, m, tier, invoice, today).value.status.state == Pending && paid.state == Paid
    ensures var plan := Evaluate(name, m, tier, invoice, today).value;
            && (plan.invoice.Some? <==> invoice.None?)
            && var spec := if invoice.Some? then invoice.value.spec else plan.invoice.value.spec;
               var next := Evaluate(name, m, tier, Some(Billed(spec, Some(paid))), today);
               && next.Some? && next.value.renewTo.Some? && next.value.renewTo.value.endsOn == plan.status.renewsOn
               && next.value.status.state == Active
  {
    hide IsDay, Less, PeriodAfter, DaysAfter;
  }

  /** The three ways of being misconfigured, as they are told. */
  lemma Problems(name: string, m: MembershipSpec, tier: Option<TierSpec>, invoice: Option<Billed>, today: string)
    requires m.endsOn.Some? ==> IsDay(m.endsOn.value)
    requires Misconfigured(m, tier)
    ensures Evaluate(name, m, tier, invoice, today).Some?
    ensures var problem := Evaluate(name, m, tier, invoice, today).value.status.problem;
            var text := "tier '" + m.tier;
            && (tier.None? ==> problem == Some(text + "' is not registered"))
            && (tier.Some? && m.endsOn.Some? ==>
                  problem == Some(text + "' is lifetime, so this membership must not carry endsOn"))
            && (tier.Some? && m.endsOn.None? ==>
                  var word := if tier.value.period == Each(Annual) then "annual" else "monthly";
                  problem == Some(text + "' bills " + word + ", so this membership needs endsOn"))
  {
    hide IsDay, Less, PeriodAfter, DaysAfter;
  }

  /** Distinct memberships or distinct terms never share an invoice name. */
  lemma InvoiceNamesAreIdentities(m: string, d: string, n: string, e: string)
    requires IsDay(d) && IsDay(e) && InvoiceName(m, d) == InvoiceName(n, e)
    ensures m == n && d == e
  {
    hide ParseInstant, IsoSlice;
    var a, b := InvoiceName(m, d), InvoiceName(n, e);
    assert d == a[|a| - 10..] && e == b[|b| - 10..];
    assert m == a[..|a| - 11] && n == b[..|b| - 11];
  }

  /**
   A planned invoice is admitted as it stands exactly when the name is not blank and both
   computed days still have a four-digit year. The raised period then ends after it starts.
   */
  lemma RaisedInvoiceValidates(name: string, m: MembershipSpec, tier: Option<TierSpec>, today: string)
    requires StoredMembership(m) && m.endsOn.Some? && IsDay(m.endsOn.value) && Renewing(m, tier, today)
    requires Evaluate(name, m, tier, None, today).Some?
    ensures var raised := Evaluate(name, m, tier, None, today).value.invoice.value.spec;
            && (ValidInvoice(raised).Some? <==>
                  Trim(name) != "" && IsDay(raised.periodEnd) && DayOf(m.endsOn.value) + tier.value.graceDays < 2932897)
            && (ValidInvoice(raised).Some? ==>
                  ValidInvoice(raised).value == raised.(membership := Trim(name)) && Less(m.endsOn.value, raised.periodEnd))
  {
    hide ParseInstant, IsoSlice, Less, Trim, PeriodAfter, FromOrdinal;
    var endsOn := m.endsOn.value;
    var raised := Evaluate(name, m, tier, None, today).value.invoice.value.spec;
    DayBounds(endsOn);
    DaysAfterExact(endsOn, tier.value.graceDays);
    DayIsTight(endsOn);
    PrintedIsTight(DayOf(endsOn) + tier.value.graceDays);
    PeriodIsTight(endsOn, tier.value.period.period);
    if IsDay(raised.periodEnd) { PeriodAfterLater(endsOn, tier.value.period.period); }
  }

  lemma DayBounds(s: string)
    requires IsDay(s)
    ensures -719528 <= DayOf(s) < 2932897
  {
    hide FromOrdinal, Ordinal;
    IsDayExact(s);
    FourDigitYears(DayOf(s));
  }

  lemma PrintedIsTight(n: int)
    requires InRange(n)
    ensures Trim(IsoSlice(n).value) == IsoSlice(n).value
  {
    hide FromOrdinal;
    YearBounds(n);
    TightIsTrimmed(IsoSlice(n).value);
  }

  lemma PeriodIsTight(day: string, p: Period)
    requires IsDay(day)
    ensures Trim(PeriodAfter(day, p)) == PeriodAfter(day, p)
  {
    hide FromOrdinal, Ordinal, IsoSlice, Trim;
    PeriodInRange(day, p);
    PrintedIsTight(Ordinal(Advance(Fields(day), p)));
  }

  /** A planned term is admitted as it stands exactly when it does not end before it starts. */
  lemma RenewedTermValidates(m: MembershipSpec, periodEnd: string)
    requires StoredMembership(m) && m.endsOn.Some? && IsDay(periodEnd)
    ensures var next := m.(startsOn := m.endsOn.value, endsOn := Some(periodEnd));
            && (ValidMembership(next).Some? <==> !Less(periodEnd, m.endsOn.value))
            && (ValidMembership(next).Some? ==> ValidMembership(next) == Some(next))
  {
    hide ParseInstant, IsoSlice, Less, Trim;
    DayIsTight(periodEnd);
    DayIsTight(m.endsOn.value);
  }
}
