/**
 Associations share the store and nothing else. The change feed names rows of every
 tenant, so a reconcile is handed its tenant and must stay inside it: what it does may
 depend on its own tenant's rows alone, and it may write no others.
 */
module RenewalTenancy {
  import opened Wrappers
  import opened ControlTables
  import opened Admission
  import opened Dates
  import opened DateArithmetic
  import opened Kinds
  import opened Renewal
  import opened RenewalLoop
  import opened RenewalStore

  // --------------------------------------------------------------------------
  // What a tenant can see
  // --------------------------------------------------------------------------

  /** The tenant's rows, and the one row that names it. */
  predicate Concerns(d: Desk, k: Key) { k.tenant == d.tenant || k == Key("tenant", "", d.tenant) }

  /** Revisions are handed out over all tenants, so two stores may number the same row differently. */
  predicate SameButRevision(a: Row<Doc>, b: Row<Doc>) { a.(revision := 0) == b.(revision := 0) }

  predicate AlikeAt(t: Tables<Doc>, u: Tables<Doc>, k: Key) {
    (k in t.rows <==> k in u.rows) && (k in t.rows ==> SameButRevision(t.rows[k], u.rows[k]))
  }

  /** Two stores in which this tenant cannot tell where it is. */
  ghost predicate Alike(d: Desk, t: Tables<Doc>, u: Tables<Doc>) {
    forall k :: Concerns(d, k) ==> AlikeAt(t, u, k)
  }

  lemma LandedAlike(d: Desk, t: Tables<Doc>, u: Tables<Doc>, w: Write<Doc>)
    requires Consistent(t) && Consistent(u) && Alike(d, t, u) && Concerns(d, w.key)
    requires Lands(t, w) && Lands(u, w) && !w.RetractRow?
    ensures Txn(t, w).Some? && Txn(u, w).Some? && Alike(d, Txn(t, w).value, Txn(u, w).value)
  {
    hide MaxRevision, WriteRow, Consistent;
    GaplessOf(t);
    GaplessOf(u);
    TxnLands(t, w);
    TxnLands(u, w);
    RowLands(t, w);
    RowLands(u, w);
    assert AlikeAt(t, u, w.key);
    forall k | Concerns(d, k) ensures AlikeAt(Txn(t, w).value, Txn(u, w).value, k) { assert AlikeAt(t, u, k); }
  }

  /** A request is answered alike, and leaves the stores alike. */
  lemma AtomicAlike(d: Desk, t: Tables<Doc>, u: Tables<Doc>, req: Request<Doc>)
    requires Consistent(t) && Consistent(u) && Alike(d, t, u) && Concerns(d, req.key) && !req.Retract?
    ensures Atomically(t, req).Some? <==> Atomically(u, req).Some?
    ensures Atomically(t, req).Some? ==> Alike(d, Atomically(t, req).value, Atomically(u, req).value)
  {
    hide MaxRevision, Consistent, Txn, Alike;
    assert AlikeAt(t, u, req.key) by { AlikeThere(d, t, u, req.key); }
    var p, q := Decide(req, ReadRow(t, req.key)), Decide(req, ReadRow(u, req.key));
    if p.Proceed? {
      assert p.write == q.write;
      ProceedLands(t, req, p.write);
      ProceedLands(u, req, p.write);
      LandedAlike(d, t, u, p.write);
    }
  }

  lemma AlikeThere(d: Desk, t: Tables<Doc>, u: Tables<Doc>, k: Key)
    requires Alike(d, t, u) && Concerns(d, k)
    ensures AlikeAt(t, u, k)
  {}

  lemma ComposedAlike(d: Desk, t: Tables<Doc>, u: Tables<Doc>, n: Notice, member: string)
    requires Alike(d, t, u)
    ensures Compose(d, t, n, member) == Compose(d, u, n, member)
  {
    AlikeThere(d, t, u, InvoiceKey(d.tenant, n.invoice));
    AlikeThere(d, t, u, Key("member", d.tenant, member));
    AlikeThere(d, t, u, Key("tenant", "", d.tenant));
  }

  lemma TakenAlike(d: Desk, mark: int, t: Tables<Doc>, u: Tables<Doc>, s: Step)
    requires Consistent(t) && Consistent(u) && Alike(d, t, u)
    ensures Take(d, mark, t, s).Some? <==> Take(d, mark, u, s).Some?
    ensures Take(d, mark, t, s).Some? ==>
              && Consistent(Take(d, mark, t, s).value) && Consistent(Take(d, mark, u, s).value)
              && Alike(d, Take(d, mark, t, s).value, Take(d, mark, u, s).value)
  {
    hide MaxRevision, Consistent, Evolves, Atomically, Alike, Compose, ValidInvoice, ValidMembership, Holds, Unfenced;
    match s
    case Write(a) =>
      var req := RequestOf(d, mark, a);
      if req.Some? {
        AtomicAlike(d, t, u, req.value);
        if Atomically(t, req.value).Some? {
          AtomicOutcome(t, req.value);
          AtomicOutcome(u, req.value);
        }
      }
    case Notify(n, member) =>
      ComposedAlike(d, t, u, n, member);
      var req := NoticeRequest(d, t, n, member);
      if req.Some? { AtomicAlike(d, t, u, req.value); }
      PostedElsewhere(d, t, n, member);
      PostedElsewhere(d, u, n, member);
  }

  lemma {:induction false} StepsAlike(d: Desk, mark: int, t: Tables<Doc>, u: Tables<Doc>, steps: seq<Step>)
    requires Consistent(t) && Consistent(u) && Alike(d, t, u)
    ensures Alike(d, CommitAll(d, mark, t, steps), CommitAll(d, mark, u, steps))
    decreases |steps|
  {
    hide Consistent, Alike, Take;
    if steps != [] {
      TakenAlike(d, mark, t, u, steps[0]);
      if Take(d, mark, t, steps[0]).Some? {
        StepsAlike(d, mark, Take(d, mark, t, steps[0]).value, Take(d, mark, u, steps[0]).value, steps[1..]);
      }
    }
  }

  lemma BooksAlike(d: Desk, t: Tables<Doc>, u: Tables<Doc>)
    requires Ready(d, t) && Ready(d, u) && Alike(d, t, u)
    ensures BooksOf(t, d.tenant, d.name) == BooksOf(u, d.tenant, d.name)
    ensures OfficeOf(d, t) == OfficeOf(d, u)
  {
    hide MaxRevision, Consistent, Alike, InvoicesOf;
    var mk := MembershipKey(d.tenant, d.name);
    AlikeThere(d, t, u, mk);
    assert TypedRow(mk, t.rows[mk]) && TypedRow(mk, u.rows[mk]);
    var a, b := InvoicesOf(t, d.tenant), InvoicesOf(u, d.tenant);
    forall n ensures n in a <==> n in b {
      InvoicesAt(t, d.tenant, n);
      InvoicesAt(u, d.tenant, n);
      AlikeThere(d, t, u, InvoiceKey(d.tenant, n));
    }
    forall n | n in a ensures a[n] == b[n] {
      InvoicesAt(t, d.tenant, n);
      InvoicesAt(u, d.tenant, n);
      AlikeThere(d, t, u, InvoiceKey(d.tenant, n));
    }
    assert a == b;
    AlikeThere(d, t, u, Key("tier", d.tenant, t.rows[mk].spec.membership.tier));
  }

  /** Whatever other tenants hold, a reconcile plans, writes and leaves the same for this one. */
  lemma ReconcileIsIsolated(d: Desk, t: Tables<Doc>, u: Tables<Doc>)
    requires Billable(d, t) && Billable(d, u) && Alike(d, t, u)
    ensures PlannedSteps(d, t) == PlannedSteps(d, u)
    ensures Alike(d, ReconcileTables(d, t), ReconcileTables(d, u))
  {
    hide MaxRevision, Consistent, Typed, BooksOf, OfficeOf, Sound, PlanOf, HasDays, StepsOf, CommitAll, Alike;
    BooksAlike(d, t, u);
    StoredDays(d, t);
    StoredDays(d, u);
    AlikeThere(d, t, u, MembershipKey(d.tenant, d.name));
    StepsAlike(d, t.rows[MembershipKey(d.tenant, d.name)].fence, t, u, PlannedSteps(d, t));
  }

  // --------------------------------------------------------------------------
  // What a tenant can write
  // --------------------------------------------------------------------------

  /** Every row of another tenant is in both, the same to the revision. */
  ghost predicate OthersKept(tenant: string, t: Tables<Doc>, t': Tables<Doc>) {
    forall k: Key :: k.tenant != tenant ==> (k in t'.rows <==> k in t.rows) && (k in t.rows ==> t'.rows[k] == t.rows[k])
  }

  lemma TakeKeepsOthers(d: Desk, mark: int, t: Tables<Doc>, s: Step)
    requires Consistent(t) && Take(d, mark, t, s).Some?
    ensures Consistent(Take(d, mark, t, s).value) && OthersKept(d.tenant, t, Take(d, mark, t, s).value)
  {
    hide MaxRevision, Consistent, Evolves, Atomically, Compose, ValidInvoice, ValidMembership, Holds, Unfenced;
    GaplessOf(t);
    match s
    case Write(a) =>
      AtomicOutcome(t, RequestOf(d, mark, a).value);
      AtomicColumns(t, RequestOf(d, mark, a).value);
    case Notify(n, member) =>
      var req := NoticeRequest(d, t, n, member);
      PostedElsewhere(d, t, n, member);
      if req.Some? && Atomically(t, req.value).Some? { AtomicColumns(t, req.value); }
  }

  lemma {:induction false} StepsKeepOthers(d: Desk, mark: int, t: Tables<Doc>, steps: seq<Step>)
    requires Consistent(t)
    ensures OthersKept(d.tenant, t, CommitAll(d, mark, t, steps))
    decreases |steps|
  {
    hide Consistent, Take;
    if steps != [] && Take(d, mark, t, steps[0]).Some? {
      TakeKeepsOthers(d, mark, t, steps[0]);
      StepsKeepOthers(d, mark, Take(d, mark, t, steps[0]).value, steps[1..]);
    }
  }

  /** A reconcile leaves every other tenant's rows as they were. */
  lemma ReconcileKeepsOthers(d: Desk, t: Tables<Doc>)
    requires Billable(d, t)
    ensures OthersKept(d.tenant, t, ReconcileTables(d, t))
  {
    hide MaxRevision, Consistent, Typed, Sound, CommitAll, OthersKept, PlannedSteps;
    StepsKeepOthers(d, t.rows[MembershipKey(d.tenant, d.name)].fence, t, PlannedSteps(d, t));
  }

  // --------------------------------------------------------------------------
  // What a reconcile leaves, row by row
  // --------------------------------------------------------------------------

  /** The rows a membership is billed from: its own, and the live one of its tier in its own tenant. */
  ghost predicate Enrolled(d: Desk, t: Tables<Doc>, m: MembershipSpec, tier: TierSpec) {
    var mk, tk := Key("membership", d.tenant, d.name), Key("tier", d.tenant, m.tier);
    && mk in t.rows && t.rows[mk].deletedAt.None? && t.rows[mk].spec == OfMembership(m)
    && tk in t.rows && t.rows[tk].deletedAt.None? && t.rows[tk].spec == OfTier(tier)
  }

  /** Its term is over and it goes on. */
  ghost predicate Due(d: Desk, t: Tables<Doc>, m: MembershipSpec, tier: TierSpec) {
    && Enrolled(d, t, m, tier) && tier.period.Each?
    && m.endsOn.Some? && !Less(d.today, m.endsOn.value) && m.autoRenew
  }

  /** The row of the invoice for the term that is over. */
  function TermKey(d: Desk, m: MembershipSpec): Key
    requires m.endsOn.Some?
  {
    Key("duesInvoice", d.tenant, d.name + "-" + m.endsOn.value)
  }

  lemma EnrolledBooks(d: Desk, t: Tables<Doc>, m: MembershipSpec, tier: TierSpec)
    requires Ready(d, t) && Enrolled(d, t, m, tier)
    ensures BooksOf(t, d.tenant, d.name).term == m
    ensures OfficeOf(d, t) == Office(d.name, Some(tier), d.today)
  {
    hide MaxRevision, Consistent, InvoicesOf;
  }

  lemma BillRead(d: Desk, t: Tables<Doc>, m: MembershipSpec)
    requires Ready(d, t) && BooksOf(t, d.tenant, d.name).term == m && m.endsOn.Some?
    ensures var billed := Current(OfficeOf(d, t), BooksOf(t, d.tenant, d.name));
            var live := TermKey(d, m) in t.rows && t.rows[TermKey(d, m)].deletedAt.None?;
            && (billed.Some? <==> live)
            && (live ==> t.rows[TermKey(d, m)].spec == OfInvoice(billed.value.spec)
                         && t.rows[TermKey(d, m)].status == (match billed.value.status
                                                             case Some(s) => Some(OfInvoiceStatus(s))
                                                             case None => None))
  {
    hide MaxRevision, Consistent, InvoicesOf;
    InvoicesAt(t, d.tenant, d.name + "-" + m.endsOn.value);
  }

  /**
   A due membership without a live invoice is billed what its own tenant's tier says. The
   invoice is there afterwards unless its name is blank or its days leave four-digit years.
   */
  lemma BilledAtOwnTier(d: Desk, t: Tables<Doc>, m: MembershipSpec, tier: TierSpec)
    requires Billable(d, t) && Due(d, t, m, tier) && IsDay(m.endsOn.value)
    requires TermKey(d, m) in t.rows ==> t.rows[TermKey(d, m)].deletedAt.Some?
    ensures var e, t' := m.endsOn.value, ReconcileTables(d, t);
            var ends := PeriodAfter(e, tier.period.period);
            var live := TermKey(d, m) in t'.rows && t'.rows[TermKey(d, m)].deletedAt.None?;
            && (live <==> Trim(d.name) != "" && IsDay(ends) && DayOf(e) + tier.graceDays < 2932897)
            && (live ==> DaysAfter(e, tier.graceDays).Some?
                         && t'.rows[TermKey(d, m)].spec ==
                            OfInvoice(InvoiceSpec(Trim(d.name), m.member, m.tier, tier.duesCents, e, ends,
                                                  DaysAfter(e, tier.graceDays).value)))
  {
    hide MaxRevision, Consistent, InvoicesOf, Ready, Evaluate, ValidInvoice, IsDay, PeriodAfter, DaysAfter, ReconcileTables;
    ReadyHasRow(d, t);
    var o, b, t' := OfficeOf(d, t), BooksOf(t, d.tenant, d.name), ReconcileTables(d, t);
    EnrolledBooks(d, t, m, tier);
    BillRead(d, t, m);
    ReconcileRefines(d, t);
    CrashPoints(o, b, 0);
    DueIsRaised(o, b, tier);
    var name := d.name + "-" + m.endsOn.value;
    ReadyHasRow(d, t');
    InvoicesAt(t, d.tenant, name);
    InvoicesAt(t', d.tenant, name);
  }

  /** The same on the books. */
  lemma DueIsRaised(o: Office, b: Books, tier: TierSpec)
    requires Sound(o, b) && o.tier == Some(tier) && tier.period.Each? && Current(o, b).None?
    requires b.term.endsOn.Some? && !Less(o.today, b.term.endsOn.value) && b.term.autoRenew
    ensures var e, n := b.term.endsOn.value, InvoiceName(o.name, b.term.endsOn.value);
            var ends := PeriodAfter(e, tier.period.period);
            var fits := Trim(o.name) != "" && IsDay(ends) && DayOf(e) + tier.graceDays < 2932897;
            && (!fits ==> Move(o, b) == b)
            && (fits ==> DaysAfter(e, tier.graceDays).Some?
                         && n in Move(o, b).invoices && Move(o, b).invoices[n].live
                         && Move(o, b).invoices[n].spec ==
                            InvoiceSpec(Trim(o.name), b.term.member, b.term.tier, tier.duesCents, e, ends,
                                        DaysAfter(e, tier.graceDays).value))
  {
    hide IsDay, PeriodAfter, DaysAfter, Less, Trim, ValidInvoice, InRange;
    var e := b.term.endsOn.value;
    DayBounds(e);
    DaysAfterExact(e, tier.graceDays);
    if PlanOf(o, b).Some? {
      WriteTable(o.name, b.term, o.tier, None, o.today);
      RaisedInvoiceValidates(o.name, b.term, o.tier, o.today);
    }
  }

  /** With no live tier of its own tenant a membership is reported invalid, and why. */
  lemma GoneTierIsInvalid(d: Desk, t: Tables<Doc>, m: MembershipSpec)
    requires Billable(d, t) && t.rows[Key("membership", d.tenant, d.name)].spec == OfMembership(m)
    requires var tk := Key("tier", d.tenant, m.tier); tk in t.rows ==> t.rows[tk].deletedAt.Some?
    ensures var mk, t' := Key("membership", d.tenant, d.name), ReconcileTables(d, t);
            && mk in t'.rows && t'.rows[mk].spec == OfMembership(m)
            && t'.rows[mk].status == Some(OfMembershipStatus(MembershipStatus(
                 Invalid, None, None, None, Some("tier '" + m.tier + "' is not registered"))))
  {
    hide MaxRevision, Consistent, InvoicesOf, ValidInvoice, IsDay, ReconcileTables;
    var mk, t' := Key("membership", d.tenant, d.name), ReconcileTables(d, t);
    var o, b := OfficeOf(d, t), BooksOf(t, d.tenant, d.name);
    ReconcileRefines(d, t);
    CrashPoints(o, b, 0);
    assert TypedRow(mk, t'.rows[mk]);
  }

  /** A paid term is taken up: the membership runs for what the invoice says, the invoice stays as it is. */
  lemma PaidIsRenewed(d: Desk, t: Tables<Doc>, m: MembershipSpec, tier: TierSpec, i: InvoiceSpec, paid: InvoiceStatus)
    requires Billable(d, t) && Due(d, t, m, tier) && IsDay(m.endsOn.value)
    requires TermKey(d, m) in t.rows && t.rows[TermKey(d, m)].deletedAt.None? && paid.state == Paid
    requires t.rows[TermKey(d, m)].spec == OfInvoice(i) && t.rows[TermKey(d, m)].status == Some(OfInvoiceStatus(paid))
    ensures var mk, t' := Key("membership", d.tenant, d.name), ReconcileTables(d, t);
            && mk in t'.rows
            && t'.rows[mk].spec == OfMembership(m.(startsOn := m.endsOn.value, endsOn := Some(i.periodEnd)))
            && t'.rows[mk].status == Some(OfMembershipStatus(MembershipStatus(Active, Some(i.periodEnd), None, None, None)))
  {
    hide MaxRevision, Consistent, InvoicesOf, ValidInvoice, IsDay, PeriodAfter, ReconcileTables;
    var mk, t' := Key("membership", d.tenant, d.name), ReconcileTables(d, t);
    ReadyHasRow(d, t);
    var o, b := OfficeOf(d, t), BooksOf(t, d.tenant, d.name);
    EnrolledBooks(d, t, m, tier);
    BillRead(d, t, m);
    ReconcileRefines(d, t);
    CrashPoints(o, b, 0);
    assert TypedRow(mk, t'.rows[mk]);
  }

  // --------------------------------------------------------------------------
  // The letter that goes with it
  // --------------------------------------------------------------------------

  /** What a notice about an invoice says, row by row. */
  ghost predicate Says(d: Desk, t: Tables<Doc>, n: Notice, member: string, l: Letter) {
    var ik, pk, ok := Key("duesInvoice", d.tenant, n.invoice), Key("member", d.tenant, member), Key("tenant", "", d.tenant);
    && l.notice == n
    && ik in t.rows && t.rows[ik].deletedAt.None? && t.rows[ik].spec == OfInvoice(l.invoice)
    && pk in t.rows && t.rows[pk].deletedAt.None? && t.rows[pk].spec == OfMember(l.member, l.to) && l.to != ""
    && (ok in t.rows && t.rows[ok].deletedAt.None? && t.rows[ok].spec.OfTenant? ==> l.org == t.rows[ok].spec.displayName)
    && (!(ok in t.rows && t.rows[ok].deletedAt.None? && t.rows[ok].spec.OfTenant?) ==> l.org == d.tenant)
    && (match t.rows[ik].status
        case Some(OfInvoiceStatus(s)) => l.paidOn == if s.paidOn.Some? then s.paidOn.value else l.invoice.periodStart
        case _ => l.paidOn == l.invoice.periodStart)
  }

  /** A letter is composed exactly when there is something to say to somebody, and then it says that. */
  lemma ComposeExact(d: Desk, t: Tables<Doc>, n: Notice, member: string, l: Letter)
    ensures Compose(d, t, n, member) == Some(l) <==> Says(d, t, n, member, l)
  {}

  /** The row under which a notice is raised. */
  function LetterKey(d: Desk, n: Notice): Key {
    Key("mailNotice", d.tenant, match n.template case DuesReminder => "dues-reminder-" + n.invoice
                                                 case DuesReceipt => "dues-receipt-" + n.invoice)
  }

  ghost predicate HasLetter(d: Desk, t: Tables<Doc>, n: Notice, l: Letter) {
    var k := LetterKey(d, n);
    k in t.rows && t.rows[k].deletedAt.None? && t.rows[k].spec == OfLetter(l) && t.rows[k].fence == 0
  }

  lemma LetterLands(d: Desk, t: Tables<Doc>, n: Notice, member: string, l: Letter)
    requires Consistent(t) && Says(d, t, n, member, l) && d.accept(l).Some?
    requires LetterKey(d, n) in t.rows ==> t.rows[LetterKey(d, n)].fence <= 0
    ensures HasLetter(d, Posted(d, t, n, member), n, d.accept(l).value)
  {
    hide MaxRevision, Consistent, Evolves, Atomically, Compose, Says;
    ComposeExact(d, t, n, member, l);
    var req := NoticeRequest(d, t, n, member).value;
    assert req.key == LetterKey(d, n);
    AtomicRefusal(t, req);
    AtomicOutcome(t, req);
  }

  /** A write of a plan leaves the rows a letter is made from, and the letter, unless it is one of them. */
  lemma WriteElsewhere(d: Desk, mark: int, t: Tables<Doc>, a: Act, k: Key)
    requires Consistent(t) && Commit(d, mark, t, a).Some?
    requires if a.Raise? then k.kind != DUES_INVOICE else k.kind != MEMBERSHIP
    ensures var u := Commit(d, mark, t, a).value;
            Consistent(u) && (k in u.rows <==> k in t.rows) && (k in t.rows ==> u.rows[k] == t.rows[k])
  {
    hide MaxRevision, Consistent, Evolves, Atomically, ValidInvoice, ValidMembership, Holds, Unfenced;
    GaplessOf(t);
    AtomicOutcome(t, RequestOf(d, mark, a).value);
    AtomicColumns(t, RequestOf(d, mark, a).value);
  }

  lemma OneMore(d: Desk, mark: int, t: Tables<Doc>, s: Step, rest: seq<Step>)
    ensures CommitAll(d, mark, t, [s] + rest) ==
            if Take(d, mark, t, s).None? then t else CommitAll(d, mark, Take(d, mark, t, s).value, rest)
  {
    assert ([s] + rest)[1..] == rest;
  }

  lemma NoMore(d: Desk, mark: int, t: Tables<Doc>)
    ensures CommitAll(d, mark, t, []) == t
  {}

  /** What a letter is made from and the letter itself are not the membership's row. */
  lemma ObserveElsewhere(d: Desk, mark: int, v: Tables<Doc>, status: MembershipStatus, n: Notice, member: string, l: Letter)
    requires Consistent(v)
    ensures var t' := CommitAll(d, mark, v, [Write(Observe(status))]);
            && (Says(d, t', n, member, l) <==> Says(d, v, n, member, l))
            && (forall x :: HasLetter(d, v, n, x) ==> HasLetter(d, t', n, x))
  {
    hide MaxRevision, Consistent, Atomically, Commit, CommitAll;
    OneMore(d, mark, v, Write(Observe(status)), []);
    assert [Write(Observe(status))] + [] == [Write(Observe(status))];
    if Commit(d, mark, v, Observe(status)).None? {
    } else {
      NoMore(d, mark, Commit(d, mark, v, Observe(status)).value);
      WriteElsewhere(d, mark, v, Observe(status), Key("duesInvoice", d.tenant, n.invoice));
      WriteElsewhere(d, mark, v, Observe(status), Key("member", d.tenant, member));
      WriteElsewhere(d, mark, v, Observe(status), Key("tenant", "", d.tenant));
      WriteElsewhere(d, mark, v, Observe(status), LetterKey(d, n));
    }
  }

  /** The last two steps of a plan that moves: told before the status, and from rows that stay. */
  lemma TellThenObserve(d: Desk, mark: int, u: Tables<Doc>, n: Notice, member: string, status: MembershipStatus, l: Letter)
    requires Consistent(u) && (LetterKey(d, n) in u.rows ==> u.rows[LetterKey(d, n)].fence <= 0)
    requires var t' := CommitAll(d, mark, u, [Notify(n, member), Write(Observe(status))]); Says(d, t', n, member, l)
    requires d.accept(l).Some?
    ensures HasLetter(d, CommitAll(d, mark, u, [Notify(n, member), Write(Observe(status))]), n, d.accept(l).value)
  {
    hide MaxRevision, Consistent, Compose, Posted, Commit, CommitAll, HasLetter;
    var v := Posted(d, u, n, member);
    OneMore(d, mark, u, Notify(n, member), [Write(Observe(status))]);
    assert [Notify(n, member)] + [Write(Observe(status))] == [Notify(n, member), Write(Observe(status))];
    PostedElsewhere(d, u, n, member);
    ObserveElsewhere(d, mark, v, status, n, member, l);
    assert Says(d, v, n, member, l) <==> Says(d, u, n, member, l);
    LetterLands(d, u, n, member, l);
  }

  function MoveOf(p: Plan): Act
    requires p.invoice.Some? || p.renewTo.Some?
  {
    if p.invoice.Some? then Raise(p.invoice.value.name, p.invoice.value.spec) else Renew(p.renewTo.value)
  }

  lemma MovingPlan(o: Office, b: Books)
    requires Sound(o, b) && Moves(o, b)
    ensures PlanOf(o, b).Some? && b.term.endsOn.Some?
    ensures var p := PlanOf(o, b).value;
            && p.invoice.Some? == !p.renewTo.Some? == Current(o, b).None?
            && p.notice == Some(Notice(if p.invoice.Some? then DuesReminder else DuesReceipt,
                                       InvoiceName(o.name, b.term.endsOn.value)))
            && Perform(b, MoveOf(p)).Some?
  {
    hide Evaluate, ValidInvoice, ValidMembership, Sound;
    var p := PlanOf(o, b).value;
    WriteTable(o.name, b.term, o.tier, Current(o, b), o.today);
    if p.renewTo.Some? { RenewalAdmitted(o, b); }
  }

  lemma MovingShape(p: Plan, member: string)
    requires p.invoice.Some? == !p.renewTo.Some? && p.notice.Some?
    ensures StepsOf(p, member) == [Write(MoveOf(p))] + [Notify(p.notice.value, member), Write(Observe(p.status))]
  {}

  /** What a plan that moves does, in order. */
  lemma MovingSteps(d: Desk, t: Tables<Doc>) returns (a: Act, n: Notice, status: MembershipStatus)
    requires Billable(d, t) && Moves(OfficeOf(d, t), BooksOf(t, d.tenant, d.name))
    ensures var b := BooksOf(t, d.tenant, d.name);
            && PlannedSteps(d, t) == [Write(a)] + [Notify(n, b.term.member), Write(Observe(status))]
            && b.term.endsOn.Some? && !a.Observe?
            && n == Notice(if Current(OfficeOf(d, t), b).None? then DuesReminder else DuesReceipt,
                           InvoiceName(d.name, b.term.endsOn.value))
            && Perform(b, a).Some? && Fits(d, t.rows[MembershipKey(d.tenant, d.name)].fence, t, a)
  {
    hide MaxRevision, Ready, BooksOf, OfficeOf, Sound, PlanOf, Current, Moves, Perform, HasDays, StepsOf, InvoiceName, Get;
    ReadyHasRow(d, t);
    StoredDays(d, t);
    var o, b := OfficeOf(d, t), BooksOf(t, d.tenant, d.name);
    MovingPlan(o, b);
    var p := PlanOf(o, b).value;
    PlannedIsNew(d, t, p);
    OfficeName(d, t);
    MovingShape(p, b.term.member);
    a, n, status := MoveOf(p), p.notice.value, p.status;
  }

  lemma OfficeName(d: Desk, t: Tables<Doc>)
    requires Ready(d, t)
    ensures OfficeOf(d, t).name == d.name
  {}

  /**
   Whoever is billed or renewed is told: the reminder or the receipt is in the store
   afterwards, saying what the rows say, if the validator takes it and nobody has fenced it.
   */
  lemma MoveIsTold(d: Desk, t: Tables<Doc>, n: Notice, m: MembershipSpec, l: Letter)
    requires Billable(d, t) && Moves(OfficeOf(d, t), BooksOf(t, d.tenant, d.name))
    requires t.rows[Key("membership", d.tenant, d.name)].spec == OfMembership(m) && m.endsOn.Some?
    requires n.invoice == d.name + "-" + m.endsOn.value
    requires n.template == if TermKey(d, m) in t.rows && t.rows[TermKey(d, m)].deletedAt.None? then DuesReceipt else DuesReminder
    requires LetterKey(d, n) in t.rows ==> t.rows[LetterKey(d, n)].fence <= 0
    requires Says(d, ReconcileTables(d, t), n, m.member, l) && d.accept(l).Some?
    ensures HasLetter(d, ReconcileTables(d, t), n, d.accept(l).value)
  {
    hide MaxRevision, Consistent, Evolves, Sound, Says, HasLetter, Commit, CommitAll, PlannedSteps, InvoicesOf, Moves,
         Current, Perform, HasDays, Compose, Typed;
    var mark := t.rows[MembershipKey(d.tenant, d.name)].fence;
    var a, told, status := MovingSteps(d, t);
    TermOf(d, t, m);
    BillRead(d, t, m);
    WriteSucceeds(d, mark, t, a);
    WriteElsewhere(d, mark, t, a, LetterKey(d, n));
    OneMore(d, mark, t, Write(a), [Notify(n, m.member), Write(Observe(status))]);
    TellThenObserve(d, mark, Commit(d, mark, t, a).value, n, m.member, status, l);
  }

  lemma TermOf(d: Desk, t: Tables<Doc>, m: MembershipSpec)
    requires Ready(d, t) && t.rows[Key("membership", d.tenant, d.name)].spec == OfMembership(m)
    ensures BooksOf(t, d.tenant, d.name).term == m
  {}
}
