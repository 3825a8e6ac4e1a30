/**
 The membership domain's resources, as values, and what the two validators that stand
 between a renewal plan and the store accept.
 */
module Kinds {
  import opened Wrappers
  import opened Periods
  import opened Dates

  const MEMBERSHIP := "membership"
  const DUES_INVOICE := "duesInvoice"

  datatype Billing = Lifetime | Each(period: Period)

  datatype TierSpec = TierSpec(duesCents: nat, period: Billing, graceDays: nat)

  datatype MembershipSpec = MembershipSpec(member: string, tier: string, startsOn: string,
                                           endsOn: Option<string>, autoRenew: bool)

  datatype InvoiceSpec = InvoiceSpec(membership: string, member: string, tier: string, amountCents: nat,
                                     periodStart: string, periodEnd: string, dueOn: string)

  datatype MembershipState = Active | Pending | Lapsed | Invalid

  datatype MembershipStatus = MembershipStatus(state: MembershipState, renewsOn: Option<string>,
                                               lapsedOn: Option<string>, currentInvoice: Option<string>,
                                               problem: Option<string>)

  datatype InvoiceState = Open | Paid | Void

  datatype InvoiceStatus = InvoiceStatus(state: InvoiceState, paidOn: Option<string>, recordedBy: Option<string>)

  // --------------------------------------------------------------------------
  // Validators
  // --------------------------------------------------------------------------

  /** White space and line terminators, as `trim` removes them. */
  predicate IsSpace(c: char) {
    || '\U{9}' <= c <= '\U{D}' || c == ' ' || c == '\U{A0}' || c == '\U{1680}' || '\U{2000}' <= c <= '\U{200A}'
    || c == '\U{2028}' || c == '\U{2029}' || c == '\U{202F}' || c == '\U{205F}' || c == '\U{3000}' || c == '\U{FEFF}'
  }

  function TrimStart(s: string): string {
    if s != "" && IsSpace(s[0]) then TrimStart(s[1..]) else s
  }

  function TrimEnd(s: string): string {
    if s != "" && IsSpace(s[|s| - 1]) then TrimEnd(s[..|s| - 1]) else s
  }

  function Trim(s: string): string { TrimEnd(TrimStart(s)) }

  /** A required string: trimmed, and refused when nothing is left. */
  function RequireString(s: string): Option<string> {
    if Trim(s) == "" then None else Some(Trim(s))
  }

  predicate RequireDay(s: string) { IsDay(Trim(s)) }

  /** `membershipKind.validate` on a value of the right shape. */
  function ValidMembership(m: MembershipSpec): Option<MembershipSpec> {
    if RequireString(m.member).None? || RequireString(m.tier).None? || !RequireDay(m.startsOn) then None
    else
      var out := MembershipSpec(Trim(m.member), Trim(m.tier), Trim(m.startsOn), None, m.autoRenew);
      if m.endsOn.None? then Some(out)
      else if !RequireDay(m.endsOn.value) || Less(Trim(m.endsOn.value), out.startsOn) then None
      else Some(out.(endsOn := Some(Trim(m.endsOn.value))))
  }

  /** `duesInvoiceKind.validate` on a value of the right shape. */
  function ValidInvoice(i: InvoiceSpec): Option<InvoiceSpec> {
    if || RequireString(i.membership).None? || RequireString(i.member).None? || RequireString(i.tier).None?
       || !RequireDay(i.periodStart) || !RequireDay(i.periodEnd) || !RequireDay(i.dueOn)
    then None
    else Some(InvoiceSpec(Trim(i.membership), Trim(i.member), Trim(i.tier), i.amountCents,
                          Trim(i.periodStart), Trim(i.periodEnd), Trim(i.dueOn)))
  }

  /** A spec as the store holds it: its own normal form. */
  predicate StoredMembership(m: MembershipSpec) { ValidMembership(m) == Some(m) }

  // --------------------------------------------------------------------------
  // Trimming
  // --------------------------------------------------------------------------

  predicate Tight(s: string) { s != "" && !IsSpace(s[0]) && !IsSpace(s[|s| - 1]) }

  lemma TightIsTrimmed(s: string)
    requires Tight(s)
    ensures Trim(s) == s
  {}

  lemma {:induction false} TrimEndTight(s: string)
    ensures TrimEnd(s) == "" || !IsSpace(TrimEnd(s)[|TrimEnd(s)| - 1])
    ensures TrimEnd(s) <= s
  {
    if s != "" && IsSpace(s[|s| - 1]) { TrimEndTight(s[..|s| - 1]); }
  }

  lemma {:induction false} TrimStartTight(s: string)
    ensures TrimStart(s) == "" || !IsSpace(TrimStart(s)[0])
  {
    if s != "" && IsSpace(s[0]) { TrimStartTight(s[1..]); }
  }

  /** Trimming twice trims once, which is what makes a stored value its own normal form. */
  lemma TrimIdempotent(s: string)
    ensures Trim(Trim(s)) == Trim(s)
    ensures Trim(s) != "" ==> Tight(Trim(s))
  {
    TrimStartTight(s);
    TrimEndTight(TrimStart(s));
    if Trim(s) != "" { TightIsTrimmed(Trim(s)); }
  }

  lemma DayIsTight(s: string)
    requires Shaped(s)
    ensures Trim(s) == s
  {
    TightIsTrimmed(s);
  }

  /** A validated value is stored as it stands: validating it again changes nothing. */
  lemma ValidatingIsIdempotent(m: MembershipSpec, i: InvoiceSpec)
    ensures ValidMembership(m).Some? ==> StoredMembership(ValidMembership(m).value)
    ensures ValidInvoice(i).Some? ==> ValidInvoice(ValidInvoice(i).value) == ValidInvoice(i)
  {
    hide IsDay, Less, Trim;
    TrimIdempotent(m.member);
    TrimIdempotent(m.tier);
    TrimIdempotent(m.startsOn);
    if m.endsOn.Some? { TrimIdempotent(m.endsOn.value); }
    TrimIdempotent(i.membership);
    TrimIdempotent(i.member);
    TrimIdempotent(i.tier);
    TrimIdempotent(i.periodStart);
    TrimIdempotent(i.periodEnd);
    TrimIdempotent(i.dueOn);
  }

  predicate AllSpaces(s: string) { forall i :: 0 <= i < |s| ==> IsSpace(s[i]) }

  lemma {:induction false} TrimEndExact(s: string) returns (after: string)
    ensures s == TrimEnd(s) + after && AllSpaces(after)
    decreases |s|
  {
    if s != "" && IsSpace(s[|s| - 1]) {
      var rest := TrimEndExact(s[..|s| - 1]);
      after := rest + [s[|s| - 1]];
      assert s == s[..|s| - 1] + [s[|s| - 1]];
    } else {
      after := "";
    }
  }

  lemma {:induction false} TrimStartExact(s: string) returns (before: string)
    ensures s == before + TrimStart(s) && AllSpaces(before)
    decreases |s|
  {
    if s != "" && IsSpace(s[0]) {
      var rest := TrimStartExact(s[1..]);
      before := [s[0]] + rest;
      assert s == [s[0]] + s[1..];
    } else {
      before := "";
    }
  }

  /** Trimming takes away white space at the two ends, all of it and nothing else. */
  lemma TrimExact(s: string) returns (before: string, after: string)
    ensures s == before + Trim(s) + after && AllSpaces(before) && AllSpaces(after)
    ensures Trim(s) == "" || Tight(Trim(s))
  {
    before := TrimStartExact(s);
    after := TrimEndExact(TrimStart(s));
    TrimIdempotent(s);
  }

  lemma BlankIsEmpty(s: string)
    ensures AllSpaces(s) <==> Trim(s) == ""
  {
    var before, after := TrimExact(s);
    if Trim(s) != "" { assert s[|before|] == Trim(s)[0]; }
  }

  /** Which memberships are admitted, and as what. */
  lemma MembershipAdmission(m: MembershipSpec)
    ensures ValidMembership(m).Some? <==>
            && !AllSpaces(m.member) && !AllSpaces(m.tier) && IsDay(Trim(m.startsOn))
            && (m.endsOn.Some? ==> IsDay(Trim(m.endsOn.value)) && !Less(Trim(m.endsOn.value), Trim(m.startsOn)))
    ensures ValidMembership(m).Some? ==>
              var r := ValidMembership(m).value;
              && r.member == Trim(m.member) && r.tier == Trim(m.tier) && r.startsOn == Trim(m.startsOn)
              && r.autoRenew == m.autoRenew
              && r.endsOn == (if m.endsOn.None? then None else Some(Trim(m.endsOn.value)))
  {
    hide IsDay, Less, Trim;
    BlankIsEmpty(m.member);
    BlankIsEmpty(m.tier);
  }

  /** Which invoices are admitted, and as what; their three days are not compared. */
  lemma InvoiceAdmission(i: InvoiceSpec)
    ensures ValidInvoice(i).Some? <==>
            && !AllSpaces(i.membership) && !AllSpaces(i.member) && !AllSpaces(i.tier)
            && IsDay(Trim(i.periodStart)) && IsDay(Trim(i.periodEnd)) && IsDay(Trim(i.dueOn))
    ensures ValidInvoice(i).Some? ==>
              var r := ValidInvoice(i).value;
              && r.membership == Trim(i.membership) && r.member == Trim(i.member) && r.tier == Trim(i.tier)
              && r.amountCents == i.amountCents
              && r.periodStart == Trim(i.periodStart) && r.periodEnd == Trim(i.periodEnd) && r.dueOn == Trim(i.dueOn)
  {
    hide IsDay, Trim;
    BlankIsEmpty(i.membership);
    BlankIsEmpty(i.member);
    BlankIsEmpty(i.tier);
  }
}
