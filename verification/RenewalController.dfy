/**
 `reconcileMembership` as it runs: reads from the replica, then one admission after
 another against the store, each of which may be refused.
 */
module RenewalController {
  import opened Wrappers
  import Dates
  import opened ControlTables
  import opened Admission
  import opened ControlStore
  import opened Kinds
  import opened Renewal
  import opened RenewalLoop
  import opened RenewalStore

  /** The invoice for the term being billed, when there is a live one. */
  method ReadInvoice(store: Store<Doc>, d: Desk, m: MembershipSpec) returns (billed: Option<Billed>)
    requires store.Valid()
    ensures store.alone && Billable(d, store.Now()) && BooksOf(store.Now(), d.tenant, d.name).term == m ==>
              billed == Current(OfficeOf(d, store.Now()), BooksOf(store.Now(), d.tenant, d.name))
  {
    hide MaxRevision, Consistent, Evolves, Sound, HasDays, InvoicesOf;
    if m.endsOn.None? { return None; }
    var name := InvoiceName(d.name, m.endsOn.value);
    var row := store.GetRow(InvoiceKey(d.tenant, name));
    if row.None? || !row.value.spec.OfInvoice? || (row.value.status.Some? && !row.value.status.value.OfInvoiceStatus?) {
      billed := None;
    } else {
      var status := if row.value.status.Some? then Some(row.value.status.value.recorded) else None;
      billed := Some(Billed(row.value.spec.invoice, status));
    }
    if store.alone && Billable(d, store.Now()) { InvoicesAt(store.Now(), d.tenant, name); }
  }

  method Submit(store: Store<Doc>, d: Desk, mark: int, a: Act) returns (ok: bool)
    requires store.Valid()
    modifies store
    ensures store.Valid() && store.Later() && store.WritesOnlyFor(d.tenant)
    ensures store.alone ==> match Commit(d, mark, old(store.Now()), a)
                            case None => !ok && store.Now() == old(store.Now())
                            case Some(t) => ok && store.Now() == t
  {
    hide MaxRevision, Consistent, Evolves, Atomically, ValidInvoice, ValidMembership;
    var req := RequestOf(d, mark, a);
    if req.None? { return false; }
    var o: Outcome<Doc>;
    match req.value {
      case Admit(key, fence, now, body) => o := store.Admit(key, body, fence, now);
      case SetStatus(key, fence, now, body) => o := store.SetStatus(key, body, fence, now);
    }
    ok := Succeeded(o);
  }

  /** Who is written to, about what; absent anything, nobody. */
  method ComposeNotice(store: Store<Doc>, d: Desk, n: Notice, member: string) returns (letter: Option<Letter>)
    requires store.Valid()
    ensures store.alone ==> letter == Compose(d, store.Now(), n, member)
  {
    var invoice := store.GetRow(InvoiceKey(d.tenant, n.invoice));
    if invoice.None? || !invoice.value.spec.OfInvoice? { return None; }
    var person := store.GetRow(Key(MEMBER, d.tenant, member));
    if person.None? || !person.value.spec.OfMember? || person.value.spec.email == "" { return None; }
    var org := store.GetRow(Key(TENANT, "", d.tenant));
    var orgName := if org.Some? && org.value.spec.OfTenant? then org.value.spec.displayName else d.tenant;
    var spec := invoice.value.spec.invoice;
    letter := Some(Letter(person.value.spec.email, n, person.value.spec.displayName, orgName, spec,
                          PaidOn(invoice.value, spec)));
  }

  /** Best effort: a refusal by the validator or by the store goes no further. */
  method RaiseDuesNotice(store: Store<Doc>, d: Desk, n: Notice, member: string)
    requires store.Valid()
    modifies store
    ensures store.Valid() && store.Later() && store.WritesOnlyFor(d.tenant)
    ensures store.alone ==> store.Now() == Posted(d, old(store.Now()), n, member)
  {
    hide MaxRevision, Consistent, Evolves, Atomically, Compose;
    var letter := ComposeNotice(store, d, n, member);
    if letter.None? { return; }
    var accepted := d.accept(letter.value);
    if accepted.None? { return; }
    var _ := store.Admit(NoticeKey(d.tenant, n), OfLetter(accepted.value), 0, d.now);
  }

  /**
   Converge one membership. Alone, it leaves exactly the tables `ReconcileTables` computes,
   notice included; with others writing it is whatever the store's own guarantees allow.
   */
  method ReconcileMembership(store: Store<Doc>, d: Desk) returns (ok: bool)
    requires store.Valid()
    modifies store
    ensures store.Valid() && store.Later() && store.WritesOnlyFor(d.tenant)
    ensures store.alone && Billable(d, old(store.Now())) ==> store.Now() == ReconcileTables(d, old(store.Now()))
    ensures store.alone && Billable(d, old(store.Now())) ==>
              (ok <==> !Fails(OfficeOf(d, old(store.Now())), BooksOf(old(store.Now()), d.tenant, d.name)))
    ensures store.alone && Get(old(store.Now()), MembershipKey(d.tenant, d.name)).None? ==> ok && store.Now() == old(store.Now())
  {
    hide MaxRevision, Consistent, Evolves, Commit, Sound, Evaluate, InvoicesOf, CommitAll, StepsOf, Store.Valid, Typed,
         PlannedSteps, ReadsTier, Current, HasDays, ReconcileTables, OfficeOf, BooksOf, Fails, PlanOf, AllTaken;
    ghost var t := store.Now();
    var row := store.GetRow(MembershipKey(d.tenant, d.name));
    if row.None? { return true; }
    if !row.value.spec.OfMembership? {
      if store.alone && Billable(d, t) { StoredTerm(d, t); }
      return false;
    }
    var m := row.value.spec.membership;
    if store.alone && Billable(d, t) { StoredTerm(d, t); }
    var tier := ReadTier(store, d, m.tier);
    var invoice := ReadInvoice(store, d, m);
    if m.endsOn.Some? && !Dates.IsDay(m.endsOn.value) { return false; }
    var plan := Evaluate(d.name, m, tier, invoice, d.today);
    if store.alone && Billable(d, t) { PlannedHere(d, t, m, tier, invoice); GetsThroughUnlessFails(d, t); }
    if plan.None? {
      CommitNone(d, row.value.fence, t);
      return false;
    }
    ok := SubmitPlan(store, d, row.value.fence, plan.value, m.member);
  }

  lemma StoredTerm(d: Desk, t: Tables<Doc>)
    requires Billable(d, t)
    ensures var mk := MembershipKey(d.tenant, d.name);
            && Typed(t) && mk in t.rows
            && t.rows[mk].spec == OfMembership(BooksOf(t, d.tenant, d.name).term)
    ensures var m := BooksOf(t, d.tenant, d.name).term; m.endsOn.Some? ==> Dates.IsDay(m.endsOn.value)
  {
    hide MaxRevision, Consistent, InvoicesOf, Sound;
    StoredDays(d, t);
    assert TypedRow(MembershipKey(d.tenant, d.name), t.rows[MembershipKey(d.tenant, d.name)]);
  }

  /** What the reads add up to is the plan on the books, and its steps. */
  lemma PlannedHere(d: Desk, t: Tables<Doc>, m: MembershipSpec, tier: Option<TierSpec>, invoice: Option<Billed>)
    requires Billable(d, t) && Typed(t) && MembershipKey(d.tenant, d.name) in t.rows
    requires BooksOf(t, d.tenant, d.name).term == m && (m.endsOn.Some? ==> Dates.IsDay(m.endsOn.value))
    requires ReadsTier(t, d.tenant, m.tier, tier)
    requires invoice == Current(OfficeOf(d, t), BooksOf(t, d.tenant, d.name))
    ensures var plan := Evaluate(d.name, m, tier, invoice, d.today);
            && plan == PlanOf(OfficeOf(d, t), BooksOf(t, d.tenant, d.name))
            && PlannedSteps(d, t) == (if plan.None? then [] else StepsOf(plan.value, m.member))
            && ReconcileTables(d, t) == CommitAll(d, t.rows[MembershipKey(d.tenant, d.name)].fence, t, PlannedSteps(d, t))
  {
    hide MaxRevision, Consistent, Evaluate, InvoicesOf, Sound, CommitAll, StepsOf, Current, Ready, BooksOf, ReadsTier;
    TierRead(t, d.tenant, m.tier, tier);
    OfficeHere(d, t);
  }

  lemma TierRead(t: Tables<Doc>, tenant: string, name: string, tier: Option<TierSpec>)
    requires ReadsTier(t, tenant, name, tier)
    ensures tier == TierOf(t, tenant, name)
  {}

  lemma OfficeHere(d: Desk, t: Tables<Doc>)
    requires Ready(d, t) && Typed(t) && MembershipKey(d.tenant, d.name) in t.rows
    ensures OfficeOf(d, t) == Office(d.name, TierOf(t, d.tenant, BooksOf(t, d.tenant, d.name).term.tier), d.today)
  {}

  lemma CommitNone(d: Desk, mark: int, t: Tables<Doc>)
    ensures CommitAll(d, mark, t, []) == t
  {}

  lemma CommitFirst(d: Desk, mark: int, t: Tables<Doc>, left: seq<Step>)
    ensures CommitAll(d, mark, t, left) ==
            if left == [] || Take(d, mark, t, left[0]).None? then t
            else CommitAll(d, mark, Take(d, mark, t, left[0]).value, left[1..])
    ensures AllTaken(d, mark, t, left) <==>
            left == [] || (Take(d, mark, t, left[0]).Some? && AllTaken(d, mark, Take(d, mark, t, left[0]).value, left[1..]))
  {}

  /** What reading a tier in some committed state gives: the live row of this tenant, or nothing. */
  ghost predicate ReadsTier(t: Tables<Doc>, tenant: string, name: string, tier: Option<TierSpec>) {
    var k := Key("tier", tenant, name);
    match tier
    case Some(spec) => k in t.rows && t.rows[k].deletedAt.None? && t.rows[k].spec == OfTier(spec)
    case None => k in t.rows && t.rows[k].deletedAt.None? ==> !t.rows[k].spec.OfTier?
  }

  method ReadTier(store: Store<Doc>, d: Desk, name: string) returns (tier: Option<TierSpec>)
    requires store.Valid()
    ensures exists at :: 0 <= at < |store.log| && ReadsTier(store.log[at], d.tenant, name, tier)
    ensures store.alone ==> ReadsTier(store.Now(), d.tenant, name, tier)
  {
    var row := store.GetRow(Key(TIER, d.tenant, name));
    tier := if row.Some? && row.value.spec.OfTier? then Some(row.value.spec.tier) else None;
  }

  /** The writes of a plan and its notice, each only if the write before did not throw. */
  method SubmitPlan(store: Store<Doc>, d: Desk, mark: int, plan: Plan, member: string) returns (ok: bool)
    requires store.Valid()
    modifies store
    ensures store.Valid() && store.Later() && store.WritesOnlyFor(d.tenant)
    ensures store.alone ==> store.Now() == CommitAll(d, mark, old(store.Now()), StepsOf(plan, member))
    ensures store.alone ==> (ok <==> AllTaken(d, mark, old(store.Now()), StepsOf(plan, member)))
  {
    hide MaxRevision, Consistent, Evolves, Commit, Posted, CommitAll, AllTaken, Store.Valid;
    ghost var t := store.Now();
    ghost var left := StepsOf(plan, member);
    if plan.invoice.Some? {
      CommitFirst(d, mark, store.Now(), left);
      ok := Submit(store, d, mark, Raise(plan.invoice.value.name, plan.invoice.value.spec));
      if !ok { return; }
      left := left[1..];
    }
    assert store.alone ==> CommitAll(d, mark, t, StepsOf(plan, member)) == CommitAll(d, mark, store.Now(), left);
    assert store.alone ==> (AllTaken(d, mark, t, StepsOf(plan, member)) <==> AllTaken(d, mark, store.Now(), left));
    if plan.renewTo.Some? {
      assert left[0] == Write(Renew(plan.renewTo.value));
      CommitFirst(d, mark, store.Now(), left);
      ok := Submit(store, d, mark, Renew(plan.renewTo.value));
      if !ok { return; }
      left := left[1..];
    }
    assert store.alone ==> CommitAll(d, mark, t, StepsOf(plan, member)) == CommitAll(d, mark, store.Now(), left);
    assert store.alone ==> (AllTaken(d, mark, t, StepsOf(plan, member)) <==> AllTaken(d, mark, store.Now(), left));
    if plan.notice.Some? {
      assert left[0] == Notify(plan.notice.value, member);
      CommitFirst(d, mark, store.Now(), left);
      RaiseDuesNotice(store, d, plan.notice.value, member);
      left := left[1..];
    }
    assert left == [Write(Observe(plan.status))];
    CommitFirst(d, mark, store.Now(), left);
    ok := Submit(store, d, mark, Observe(plan.status));
    CommitFirst(d, mark, store.Now(), left[1..]);
  }
}
