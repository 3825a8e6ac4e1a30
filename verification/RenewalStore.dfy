/**
 The renewal loop on the control plane's own tables: what a reconcile commits there is
 what RenewalLoop says about the books, revision for revision.
 */
module RenewalStore {
  import opened Wrappers
  import opened ControlTables
  import opened Admission
  import Dates
  import opened Kinds
  import opened Renewal
  import opened RenewalLoop

  /** What the rows of the membership domain hold. */
  datatype Doc =
    | OfMembership(membership: MembershipSpec)
    | OfInvoice(invoice: InvoiceSpec)
    | OfTier(tier: TierSpec)
    | OfMembershipStatus(observed: MembershipStatus)
    | OfInvoiceStatus(recorded: InvoiceStatus)
    | OfMember(displayName: string, email: string)      // no address is the empty string
    | OfTenant(displayName: string)
    | OfLetter(letter: Letter)
    | Other(text: string)

  /** What a notice is made from; its subject line and the formatting of amounts are not modelled. */
  datatype Letter = Letter(to: string, notice: Notice, member: string, org: string, invoice: InvoiceSpec, paidOn: string)

  const TIER := "tier"
  const MEMBER := "member"
  const TENANT := "tenant"
  const MAIL_NOTICE := "mailNotice"

  function MembershipKey(tenant: string, name: string): Key { Key(MEMBERSHIP, tenant, name) }

  function InvoiceKey(tenant: string, name: string): Key { Key(DUES_INVOICE, tenant, name) }

  /** A notice's identity: its template and the invoice it is about. */
  function NoticeKey(tenant: string, n: Notice): Key {
    Key(MAIL_NOTICE, tenant, (if n.template.DuesReminder? then "dues-reminder-" else "dues-receipt-") + n.invoice)
  }

  predicate TypedRow(k: Key, row: Row<Doc>) {
    && (k.kind == MEMBERSHIP ==> row.spec.OfMembership? && (row.status.Some? ==> row.status.value.OfMembershipStatus?))
    && (k.kind == DUES_INVOICE ==> row.spec.OfInvoice? && (row.status.Some? ==> row.status.value.OfInvoiceStatus?))
    && (k.kind == TIER ==> row.spec.OfTier?)
  }

  /** Every row holds what its kind's validator and its writers put there. */
  ghost predicate Typed(t: Tables<Doc>) {
    forall k :: k in t.rows ==> TypedRow(k, t.rows[k])
  }

  function InvoiceOf(row: Row<Doc>): Invoice
    requires row.spec.OfInvoice? && (row.status.Some? ==> row.status.value.OfInvoiceStatus?)
  {
    Invoice(row.spec.invoice, if row.status.Some? then Some(row.status.value.recorded) else None, row.Live())
  }

  ghost function InvoicesOf(t: Tables<Doc>, tenant: string): map<string, Invoice>
    requires Typed(t)
  {
    map k | k in t.rows && k.kind == DUES_INVOICE && k.tenant == tenant :: k.name :=
      assert TypedRow(k, t.rows[k]); InvoiceOf(t.rows[k])
  }

  ghost function BooksOf(t: Tables<Doc>, tenant: string, name: string): Books
    requires Typed(t) && MembershipKey(tenant, name) in t.rows
  {
    var row := t.rows[MembershipKey(tenant, name)];
    assert TypedRow(MembershipKey(tenant, name), row);
    Books(row.spec.membership, if row.status.Some? then Some(row.status.value.observed) else None, InvoicesOf(t, tenant))
  }

  lemma InvoicesAt(t: Tables<Doc>, tenant: string, n: string)
    requires Typed(t)
    ensures n in InvoicesOf(t, tenant) <==> InvoiceKey(tenant, n) in t.rows
    ensures n in InvoicesOf(t, tenant) ==>
              && TypedRow(InvoiceKey(tenant, n), t.rows[InvoiceKey(tenant, n)])
              && InvoicesOf(t, tenant)[n] == InvoiceOf(t.rows[InvoiceKey(tenant, n)])
  {
    var k := InvoiceKey(tenant, n);
    if k in t.rows { assert TypedRow(k, t.rows[k]); }
  }

  /** The tier a membership's books are read against. */
  function TierOf(t: Tables<Doc>, tenant: string, tier: string): Option<TierSpec> {
    match Get(t, Key(TIER, tenant, tier))
    case Some(row) => if row.spec.OfTier? then Some(row.spec.tier) else None
    case None => None
  }

  // --------------------------------------------------------------------------
  // One write
  // --------------------------------------------------------------------------

  /** The membership a pass is at, the pass's token, the day, and the mail kind's validator. */
  datatype Desk = Desk(
    tenant: string,
    name: string,
    token: int,
    now: string,
    today: string,
    accept: Letter -> Option<Letter>)

  /** The admission each act asks for; `None` when its validator throws first. */
  function RequestOf(d: Desk, mark: int, a: Act): Option<Request<Doc>> {
    match a
    case Raise(n, spec) =>
      if ValidInvoice(spec).None? then None
      else Some(Admit(InvoiceKey(d.tenant, n), 0, d.now, OfInvoice(ValidInvoice(spec).value)))
    case Renew(term) =>
      if ValidMembership(term).None? then None
      else Some(Admit(MembershipKey(d.tenant, d.name), mark, d.now, OfMembership(ValidMembership(term).value)))
    case Observe(status) =>
      Some(SetStatus(MembershipKey(d.tenant, d.name), d.token, d.now, OfMembershipStatus(status)))
  }

  ghost function Commit(d: Desk, mark: int, t: Tables<Doc>, a: Act): Option<Tables<Doc>> {
    if RequestOf(d, mark, a).None? then None else Atomically(t, RequestOf(d, mark, a).value)
  }

  /**
   The membership is live and no mark is above the token; invoices carry no token, so
   their marks never rose.
   */
  ghost predicate Ready(d: Desk, t: Tables<Doc>) {
    && Consistent(t) && Typed(t)
    && Get(t, MembershipKey(d.tenant, d.name)).Some?
    && t.rows[MembershipKey(d.tenant, d.name)].fence <= d.token
    && forall n :: InvoiceKey(d.tenant, n) in t.rows ==> t.rows[InvoiceKey(d.tenant, n)].fence <= 0
  }

  /** The circumstances a plan makes each write in. */
  predicate Fits(d: Desk, mark: int, t: Tables<Doc>, a: Act) {
    match a
    case Raise(n, _) => Get(t, InvoiceKey(d.tenant, n)).None?
    case Renew(_) => MembershipKey(d.tenant, d.name) in t.rows && mark == t.rows[MembershipKey(d.tenant, d.name)].fence
    case Observe(_) => true
  }

  lemma WriteSucceeds(d: Desk, mark: int, t: Tables<Doc>, a: Act)
    requires Ready(d, t) && Fits(d, mark, t, a)
    ensures Commit(d, mark, t, a).Some? <==> Perform(BooksOf(t, d.tenant, d.name), a).Some?
  {
    hide MaxRevision, Consistent, Evolves, ValidInvoice, ValidMembership, Atomically;
    if RequestOf(d, mark, a).Some? { AtomicRefusal(t, RequestOf(d, mark, a).value); }
  }

  lemma WriteStaysReady(d: Desk, mark: int, t: Tables<Doc>, a: Act)
    requires Ready(d, t) && Fits(d, mark, t, a) && Commit(d, mark, t, a).Some?
    ensures var t' := Commit(d, mark, t, a).value;
            && Ready(d, t')
            && (forall tier :: TierOf(t', d.tenant, tier) == TierOf(t, d.tenant, tier))
            && (a.Raise? ==> t'.rows[MembershipKey(d.tenant, d.name)] == t.rows[MembershipKey(d.tenant, d.name)])
            && (a.Renew? ==> t'.rows[MembershipKey(d.tenant, d.name)].fence == t.rows[MembershipKey(d.tenant, d.name)].fence)
  {
    hide MaxRevision, Consistent, Evolves, ValidInvoice, ValidMembership, Atomically, Holds, Unfenced;
    var req := RequestOf(d, mark, a).value;
    var t' := Commit(d, mark, t, a).value;
    AtomicOutcome(t, req);
    GaplessOf(t);
    AtomicColumns(t, req);
    forall k | k in t'.rows ensures TypedRow(k, t'.rows[k]) {
      if k in t.rows { assert TypedRow(k, t.rows[k]); }
    }
  }

  lemma WriteRefines(d: Desk, mark: int, t: Tables<Doc>, a: Act)
    requires Ready(d, t) && Fits(d, mark, t, a) && Commit(d, mark, t, a).Some? && Perform(BooksOf(t, d.tenant, d.name), a).Some?
    requires Ready(d, Commit(d, mark, t, a).value)
    ensures BooksOf(Commit(d, mark, t, a).value, d.tenant, d.name) == Perform(BooksOf(t, d.tenant, d.name), a).value
  {
    hide MaxRevision, Consistent, Evolves, ValidInvoice, ValidMembership, Atomically, Holds, Unfenced, InvoicesOf;
    var req := RequestOf(d, mark, a).value;
    var t' := Commit(d, mark, t, a).value;
    GaplessOf(t);
    AtomicColumns(t, req);
    var mk := MembershipKey(d.tenant, d.name);
    assert TypedRow(mk, t.rows[mk]) && TypedRow(mk, t'.rows[mk]);
    var b' := Perform(BooksOf(t, d.tenant, d.name), a).value;
    forall n ensures n in InvoicesOf(t', d.tenant) <==> n in b'.invoices {
      InvoicesAt(t, d.tenant, n);
      InvoicesAt(t', d.tenant, n);
    }
    forall n | n in b'.invoices ensures InvoicesOf(t', d.tenant)[n] == b'.invoices[n] {
      InvoicesAt(t, d.tenant, n);
      InvoicesAt(t', d.tenant, n);
    }
    assert InvoicesOf(t', d.tenant) == b'.invoices;
  }

  /** A write commits one revision if it changes the books, and none if it does not. */
  lemma WriteCosts(d: Desk, mark: int, t: Tables<Doc>, a: Act)
    requires Ready(d, t) && Fits(d, mark, t, a) && Commit(d, mark, t, a).Some? && Perform(BooksOf(t, d.tenant, d.name), a).Some?
    ensures var t' := Commit(d, mark, t, a).value;
            var same := Perform(BooksOf(t, d.tenant, d.name), a).value == BooksOf(t, d.tenant, d.name);
            && MaxRevision(t'.rows) == MaxRevision(t.rows) + (if same then 0 else 1)
            && (same ==> t' == t)
  {
    hide MaxRevision, Consistent, Evolves, ValidInvoice, ValidMembership, Atomically, InvoicesOf;
    var req := RequestOf(d, mark, a).value;
    AtomicOutcome(t, req);
    var mk := MembershipKey(d.tenant, d.name);
    assert TypedRow(mk, t.rows[mk]);
    if a.Raise? {
      InvoicesAt(t, d.tenant, a.name);
      var b' := Perform(BooksOf(t, d.tenant, d.name), a).value;
      assert b'.invoices[a.name].live;
    }
  }

  /**
   The mark a changing write leaves: none on an invoice, so a treasurer needs no lease to
   record payment; the one that was read on a renewed term, so operators are not locked
   out; and the pass's token on what the pass observed.
   */
  lemma WriteMarks(d: Desk, mark: int, t: Tables<Doc>, a: Act)
    requires Consistent(t) && Commit(d, mark, t, a).Some? && Commit(d, mark, t, a).value != t
    ensures var t' := Commit(d, mark, t, a).value;
            var k := if a.Raise? then InvoiceKey(d.tenant, a.name) else MembershipKey(d.tenant, d.name);
            && k in t'.rows && t'.rows[k].updatedAt == d.now
            && t'.rows[k].fence == (match a case Raise(_, _) => 0 case Renew(_) => mark case Observe(_) => d.token)
  {
    hide MaxRevision, Consistent, Evolves, Atomically, ValidInvoice, ValidMembership;
    AtomicTimes(t, RequestOf(d, mark, a).value);
  }

  // --------------------------------------------------------------------------
  // The notice
  // --------------------------------------------------------------------------

  /** Nobody to write to, or nothing to write about, is no letter. */
  function Compose(d: Desk, t: Tables<Doc>, n: Notice, member: string): Option<Letter> {
    var invoice := Get(t, InvoiceKey(d.tenant, n.invoice));
    var person := Get(t, Key(MEMBER, d.tenant, member));
    var org := Get(t, Key(TENANT, "", d.tenant));
    if invoice.None? || !invoice.value.spec.OfInvoice? then None
    else if person.None? || !person.value.spec.OfMember? || person.value.spec.email == "" then None
    else
      var spec := invoice.value.spec.invoice;
      Some(Letter(person.value.spec.email, n, person.value.spec.displayName,
                  if org.Some? && org.value.spec.OfTenant? then org.value.spec.displayName else d.tenant,
                  spec, PaidOn(invoice.value, spec)))
  }

  function PaidOn(invoice: Row<Doc>, spec: InvoiceSpec): string {
    if invoice.status.Some? && invoice.status.value.OfInvoiceStatus? && invoice.status.value.recorded.paidOn.Some?
    then invoice.status.value.recorded.paidOn.value
    else spec.periodStart
  }

  function NoticeRequest(d: Desk, t: Tables<Doc>, n: Notice, member: string): Option<Request<Doc>> {
    match Compose(d, t, n, member)
    case None => None
    case Some(letter) =>
      if d.accept(letter).None? then None
      else Some(Admit(NoticeKey(d.tenant, n), 0, d.now, OfLetter(d.accept(letter).value)))
  }

  /** Best effort: whatever goes wrong is swallowed. */
  ghost function Posted(d: Desk, t: Tables<Doc>, n: Notice, member: string): Tables<Doc> {
    match NoticeRequest(d, t, n, member)
    case None => t
    case Some(req) => if Atomically(t, req).None? then t else Atomically(t, req).value
  }

  ghost predicate Elsewhere(t: Tables<Doc>, t': Tables<Doc>) {
    forall k: Key :: k.kind != MAIL_NOTICE ==>
      (k in t'.rows <==> k in t.rows) && (k in t.rows ==> t'.rows[k] == t.rows[k])
  }

  /** A notice is a row of its own: the membership, its invoices and its tier do not notice. */
  lemma PostedElsewhere(d: Desk, t: Tables<Doc>, n: Notice, member: string)
    requires Consistent(t)
    ensures var t' := Posted(d, t, n, member);
            && Consistent(t')
            && MaxRevision(t.rows) <= MaxRevision(t'.rows) <= MaxRevision(t.rows) + 1
            && Elsewhere(t, t')
  {
    hide MaxRevision, Consistent, Evolves, Atomically, Compose, Holds, Unfenced;
    var req := NoticeRequest(d, t, n, member);
    if req.Some? && Atomically(t, req.value).Some? {
      AtomicOutcome(t, req.value);
      GaplessOf(t);
      AtomicColumns(t, req.value);
    }
  }

  lemma PostKeeps(d: Desk, t: Tables<Doc>, n: Notice, member: string)
    requires Ready(d, t)
    ensures var t' := Posted(d, t, n, member);
            && Ready(d, t')
            && BooksOf(t', d.tenant, d.name) == BooksOf(t, d.tenant, d.name)
            && (forall tier :: TierOf(t', d.tenant, tier) == TierOf(t, d.tenant, tier))
            && t'.rows[MembershipKey(d.tenant, d.name)] == t.rows[MembershipKey(d.tenant, d.name)]
            && MaxRevision(t.rows) <= MaxRevision(t'.rows) <= MaxRevision(t.rows) + 1
  {
    hide MaxRevision, Consistent, Posted, InvoicesOf;
    var t' := Posted(d, t, n, member);
    PostedElsewhere(d, t, n, member);
    forall k | k in t'.rows ensures TypedRow(k, t'.rows[k]) {
      if k in t.rows { assert TypedRow(k, t.rows[k]); }
    }
    forall m ensures m in InvoicesOf(t', d.tenant) <==> m in InvoicesOf(t, d.tenant) {
      InvoicesAt(t, d.tenant, m);
      InvoicesAt(t', d.tenant, m);
    }
    forall m | m in InvoicesOf(t, d.tenant) ensures InvoicesOf(t', d.tenant)[m] == InvoicesOf(t, d.tenant)[m] {
      InvoicesAt(t, d.tenant, m);
      InvoicesAt(t', d.tenant, m);
    }
    assert InvoicesOf(t', d.tenant) == InvoicesOf(t, d.tenant);
  }

  /** Raising the same notice again, with nothing in between, changes nothing: there is only one. */
  lemma PostedOnce(d: Desk, t: Tables<Doc>, n: Notice, member: string)
    requires Consistent(t)
    ensures Posted(d, Posted(d, t, n, member), n, member) == Posted(d, t, n, member)
  {
    hide MaxRevision, Consistent, Evolves, Atomically, Compose, Posted;
    var t' := Posted(d, t, n, member);
    PostedElsewhere(d, t, n, member);
    SameLetter(d, t, t', n, member);
    PostedTwice(d, t, n, member);
  }

  lemma SameLetter(d: Desk, t: Tables<Doc>, t': Tables<Doc>, n: Notice, member: string)
    requires Elsewhere(t, t')
    ensures Compose(d, t', n, member) == Compose(d, t, n, member)
  {}

  lemma PostedTwice(d: Desk, t: Tables<Doc>, n: Notice, member: string)
    requires Consistent(t) && Compose(d, Posted(d, t, n, member), n, member) == Compose(d, t, n, member)
    ensures Posted(d, Posted(d, t, n, member), n, member) == Posted(d, t, n, member)
  {
    hide MaxRevision, Consistent, Evolves, Atomically, Compose;
    var req := NoticeRequest(d, t, n, member);
    if req.Some? && Atomically(t, req.value).Some? { RepeatIsQuiet(t, req.value); }
  }

  // --------------------------------------------------------------------------
  // One reconcile
  // --------------------------------------------------------------------------

  /** A write of the plan, or its notice. */
  datatype Step = Write(act: Act) | Notify(notice: Notice, member: string)

  /** Invoice, term, notice, status. */
  function StepsOf(p: Plan, member: string): seq<Step> {
    (if p.invoice.Some? then [Write(Raise(p.invoice.value.name, p.invoice.value.spec))] else [])
    + (if p.renewTo.Some? then [Write(Renew(p.renewTo.value))] else [])
    + (if p.notice.Some? then [Notify(p.notice.value, member)] else [])
    + [Write(Observe(p.status))]
  }

  function ActsIn(steps: seq<Step>): seq<Act> {
    if steps == [] then [] else (if steps[0].Write? then [steps[0].act] else []) + ActsIn(steps[1..])
  }

  function Notices(steps: seq<Step>): nat {
    if steps == [] then 0 else (if steps[0].Notify? then 1 else 0) + Notices(steps[1..])
  }

  lemma {:induction false} ActsInSplits(a: seq<Step>, b: seq<Step>)
    ensures ActsIn(a + b) == ActsIn(a) + ActsIn(b) && Notices(a + b) == Notices(a) + Notices(b)
    decreases |a|
  {
    if a == [] {
      assert a + b == b;
    } else {
      assert (a + b)[0] == a[0] && (a + b)[1..] == a[1..] + b;
      ActsInSplits(a[1..], b);
    }
  }

  lemma OneStep(s: Step)
    ensures ActsIn([s]) == (if s.Write? then [s.act] else []) && Notices([s]) == if s.Write? then 0 else 1
  {
    assert [s][1..] == [];
  }

  lemma StepsOfPlan(p: Plan, member: string)
    ensures ActsIn(StepsOf(p, member)) == Acts(p)
    ensures Notices(StepsOf(p, member)) == if p.notice.Some? then 1 else 0
  {
    hide ActsIn, Notices;
    var raise := if p.invoice.Some? then [Write(Raise(p.invoice.value.name, p.invoice.value.spec))] else [];
    var renew := if p.renewTo.Some? then [Write(Renew(p.renewTo.value))] else [];
    var notify := if p.notice.Some? then [Notify(p.notice.value, member)] else [];
    NoSteps();
    if p.invoice.Some? { OneStep(raise[0]); }
    if p.renewTo.Some? { OneStep(renew[0]); }
    if p.notice.Some? { OneStep(notify[0]); }
    OneStep(Write(Observe(p.status)));
    ActsInSplits(raise, renew);
    ActsInSplits(raise + renew, notify);
    ActsInSplits(raise + renew + notify, [Write(Observe(p.status))]);
  }

  lemma NoSteps()
    ensures ActsIn([]) == [] && Notices([]) == 0
  {}

  ghost function Take(d: Desk, mark: int, t: Tables<Doc>, s: Step): Option<Tables<Doc>> {
    match s
    case Write(a) => Commit(d, mark, t, a)
    case Notify(n, member) => Some(Posted(d, t, n, member))
  }

  ghost function CommitAll(d: Desk, mark: int, t: Tables<Doc>, steps: seq<Step>): Tables<Doc>
    decreases |steps|
  {
    if steps == [] || Take(d, mark, t, steps[0]).None? then t
    else CommitAll(d, mark, Take(d, mark, t, steps[0]).value, steps[1..])
  }

  /** No step throws. */
  ghost predicate AllTaken(d: Desk, mark: int, t: Tables<Doc>, steps: seq<Step>)
    decreases |steps|
  {
    steps != [] ==> Take(d, mark, t, steps[0]).Some? && AllTaken(d, mark, Take(d, mark, t, steps[0]).value, steps[1..])
  }

  predicate InPlace(d: Desk, mark: int, t: Tables<Doc>, s: Step, i: nat, n: nat) {
    s.Write? ==> Fits(d, mark, t, s.act) && (s.act.Raise? ==> i == 0) && (s.act.Observe? ==> i == n - 1)
  }

  ghost predicate InOrder(d: Desk, mark: int, t: Tables<Doc>, steps: seq<Step>) {
    forall i :: 0 <= i < |steps| ==> InPlace(d, mark, t, steps[i], i, |steps|)
  }

  /** One step refines its act on the books, if it is one, and spends what it may. */
  lemma StepRefines(d: Desk, mark: int, t: Tables<Doc>, s: Step)
    requires Ready(d, t) && (s.Write? ==> Fits(d, mark, t, s.act))
    ensures var b := BooksOf(t, d.tenant, d.name);
            && (Take(d, mark, t, s).Some? <==> s.Notify? || Perform(b, s.act).Some?)
            && (Take(d, mark, t, s).Some? ==>
                  var t' := Take(d, mark, t, s).value;
                  var b' := if s.Write? then Perform(b, s.act).value else b;
                  var spent := if b' == b then 0 else 1;
                  && Ready(d, t') && BooksOf(t', d.tenant, d.name) == b'
                  && MaxRevision(t.rows) + spent <= MaxRevision(t'.rows)
                  && MaxRevision(t'.rows) <= MaxRevision(t.rows) + spent + (if s.Write? then 0 else 1)
                  && (s.Write? && b' == b ==> t' == t)
                  && (forall tier :: TierOf(t', d.tenant, tier) == TierOf(t, d.tenant, tier)))
  {
    hide MaxRevision, Ready, BooksOf, Perform, Commit, TierOf, Posted;
    match s
    case Write(a) =>
      WriteSucceeds(d, mark, t, a);
      if Commit(d, mark, t, a).Some? {
        WriteStaysReady(d, mark, t, a);
        WriteRefines(d, mark, t, a);
        WriteCosts(d, mark, t, a);
      }
    case Notify(n, member) => PostKeeps(d, t, n, member);
  }

  /** Steps in order refine their acts on the books; a notice spends one revision at most. */
  lemma {:induction false} WritesRefine(d: Desk, mark: int, t: Tables<Doc>, steps: seq<Step>)
    requires Ready(d, t) && InOrder(d, mark, t, steps)
    ensures var t' := CommitAll(d, mark, t, steps);
            var b := BooksOf(t, d.tenant, d.name);
            && Ready(d, t')
            && BooksOf(t', d.tenant, d.name) == Run(b, ActsIn(steps))
            && MaxRevision(t.rows) + Changes(b, ActsIn(steps)) <= MaxRevision(t'.rows)
            && MaxRevision(t'.rows) <= MaxRevision(t.rows) + Changes(b, ActsIn(steps)) + Notices(steps)
            && (Changes(b, ActsIn(steps)) == 0 && Notices(steps) == 0 ==> t' == t)
            && (forall tier :: TierOf(t', d.tenant, tier) == TierOf(t, d.tenant, tier))
    decreases |steps|
  {
    hide MaxRevision, Ready, BooksOf, Perform, Take, TierOf, InOrder;
    if steps != [] {
      var s := steps[0];
      FirstInPlace(d, mark, t, steps);
      StepRefines(d, mark, t, s);
      if Take(d, mark, t, s).Some? {
        var u := Take(d, mark, t, s).value;
        RestInOrder(d, mark, t, steps);
        WritesRefine(d, mark, u, steps[1..]);
        var acts := ActsIn(steps[1..]);
        assert s.Write? ==> ([s.act] + acts)[1..] == acts;
        assert s.Notify? ==> [] + acts == acts;
      } else {
        assert ([s.act] + ActsIn(steps[1..]))[0] == s.act;
      }
    }
  }

  lemma FirstInPlace(d: Desk, mark: int, t: Tables<Doc>, steps: seq<Step>)
    requires InOrder(d, mark, t, steps) && steps != []
    ensures steps[0].Write? ==> Fits(d, mark, t, steps[0].act)
  {
    assert InPlace(d, mark, t, steps[0], 0, |steps|);
  }

  lemma RestInOrder(d: Desk, mark: int, t: Tables<Doc>, steps: seq<Step>)
    requires Ready(d, t) && steps != [] && InOrder(d, mark, t, steps) && Take(d, mark, t, steps[0]).Some?
    ensures InOrder(d, mark, Take(d, mark, t, steps[0]).value, steps[1..])
  {
    hide MaxRevision, Ready, Commit, TierOf, Posted, BooksOf;
    var u := Take(d, mark, t, steps[0]).value;
    FirstInPlace(d, mark, t, steps);
    ReadyHasRow(d, t);
    if steps[0].Write? { WriteStaysReady(d, mark, t, steps[0].act); }
    else { PostKeeps(d, t, steps[0].notice, steps[0].member); }
    ReadyHasRow(d, u);
    forall i | 0 <= i < |steps[1..]| ensures InPlace(d, mark, u, steps[1..][i], i, |steps[1..]|) {
      assert InPlace(d, mark, t, steps[i + 1], i + 1, |steps|);
    }
  }

  lemma ReadyHasRow(d: Desk, t: Tables<Doc>)
    requires Ready(d, t)
    ensures MembershipKey(d.tenant, d.name) in t.rows && Typed(t)
  {}

  ghost function OfficeOf(d: Desk, t: Tables<Doc>): Office
    requires Ready(d, t)
  {
    Office(d.name, TierOf(t, d.tenant, BooksOf(t, d.tenant, d.name).term.tier), d.today)
  }

  /** The store's books, sound for the loop. */
  ghost predicate Billable(d: Desk, t: Tables<Doc>) {
    && Ready(d, t)
    && Sound(OfficeOf(d, t), BooksOf(t, d.tenant, d.name))
  }

  ghost function PlannedSteps(d: Desk, t: Tables<Doc>): seq<Step>
    requires Billable(d, t)
  {
    var b := BooksOf(t, d.tenant, d.name);
    var plan := PlanOf(OfficeOf(d, t), b);
    if plan.None? then [] else StepsOf(plan.value, b.term.member)
  }

  /** `reconcileMembership`, uninterrupted: plan on what is stored, then one step after another. */
  ghost function ReconcileTables(d: Desk, t: Tables<Doc>): Tables<Doc>
    requires Billable(d, t)
  {
    CommitAll(d, t.rows[MembershipKey(d.tenant, d.name)].fence, t, PlannedSteps(d, t))
  }

  lemma StepsInOrder(d: Desk, t: Tables<Doc>, plan: Plan, member: string)
    requires MembershipKey(d.tenant, d.name) in t.rows && !(plan.invoice.Some? && plan.renewTo.Some?)
    requires plan.invoice.Some? ==> Get(t, InvoiceKey(d.tenant, plan.invoice.value.name)).None?
    ensures InOrder(d, t.rows[MembershipKey(d.tenant, d.name)].fence, t, StepsOf(plan, member))
  {
    hide InvoiceKey, Get;
    var steps := StepsOf(plan, member);
    assert steps[|steps| - 1] == Write(Observe(plan.status));
    assert plan.invoice.Some? ==> steps[0] == Write(Raise(plan.invoice.value.name, plan.invoice.value.spec));
    assert plan.renewTo.Some? ==> steps[0] == Write(Renew(plan.renewTo.value));
    assert forall i :: 0 < i < |steps| - 1 ==> steps[i].Notify?;
  }

  /** An invoice is planned only when there is no live one of that name. */
  lemma PlannedIsNew(d: Desk, t: Tables<Doc>, plan: Plan)
    requires Billable(d, t) && PlanOf(OfficeOf(d, t), BooksOf(t, d.tenant, d.name)) == Some(plan)
    ensures !(plan.invoice.Some? && plan.renewTo.Some?)
    ensures plan.invoice.Some? ==> Get(t, InvoiceKey(d.tenant, plan.invoice.value.name)).None?
  {
    hide MaxRevision, Consistent, Evolves, Evaluate, Sound, HasDays, InvoicesOf;
    var o, b := OfficeOf(d, t), BooksOf(t, d.tenant, d.name);
    StoredDays(d, t);
    WriteTable(o.name, b.term, o.tier, Current(o, b), o.today);
    if plan.invoice.Some? { InvoicesAt(t, d.tenant, InvoiceName(o.name, b.term.endsOn.value)); }
  }

  lemma PlanInOrder(d: Desk, t: Tables<Doc>)
    requires Billable(d, t)
    ensures InOrder(d, t.rows[MembershipKey(d.tenant, d.name)].fence, t, PlannedSteps(d, t))
    ensures ActsIn(PlannedSteps(d, t)) == Planned(OfficeOf(d, t), BooksOf(t, d.tenant, d.name))
  {
    hide Ready, BooksOf, OfficeOf, Sound, HasDays, PlanOf, Acts, StepsOf;
    ReadyHasRow(d, t);
    StoredDays(d, t);
    var b := BooksOf(t, d.tenant, d.name);
    var plan := PlanOf(OfficeOf(d, t), b);
    if plan.Some? {
      PlannedIsNew(d, t, plan.value);
      StepsInOrder(d, t, plan.value, b.term.member);
      StepsOfPlan(plan.value, b.term.member);
    }
  }

  /** A notice is planned with a move, and only with one; a reconcile that throws posts none. */
  lemma NoticeWithMove(d: Desk, t: Tables<Doc>)
    requires Billable(d, t)
    ensures var o, b := OfficeOf(d, t), BooksOf(t, d.tenant, d.name);
            && (!Fails(o, b) ==> Notices(PlannedSteps(d, t)) == if Moves(o, b) then 1 else 0)
            && (Fails(o, b) ==> ReconcileTables(d, t) == t)
  {
    hide MaxRevision, Ready, BooksOf, OfficeOf, Sound, HasDays, Evaluate, ValidInvoice, ValidMembership;
    ReadyHasRow(d, t);
    StoredDays(d, t);
    var o, b := OfficeOf(d, t), BooksOf(t, d.tenant, d.name);
    if PlanOf(o, b).Some? {
      var p := PlanOf(o, b).value;
      WriteTable(o.name, b.term, o.tier, Current(o, b), o.today);
      StepsOfPlan(p, b.term.member);
      if Fails(o, b) { assert PlannedSteps(d, t)[0] == Write(Raise(p.invoice.value.name, p.invoice.value.spec)); }
    }
  }

  /** No write is refused. */
  predicate AllPerformed(b: Books, acts: seq<Act>)
    decreases |acts|
  {
    acts != [] ==> Perform(b, acts[0]).Some? && AllPerformed(Perform(b, acts[0]).value, acts[1..])
  }

  lemma {:induction false} TakenIsPerformed(d: Desk, mark: int, t: Tables<Doc>, steps: seq<Step>)
    requires Ready(d, t) && InOrder(d, mark, t, steps)
    ensures AllTaken(d, mark, t, steps) <==> AllPerformed(BooksOf(t, d.tenant, d.name), ActsIn(steps))
    decreases |steps|
  {
    hide MaxRevision, Ready, BooksOf, Perform, Take, TierOf, InOrder;
    if steps != [] {
      var s := steps[0];
      FirstInPlace(d, mark, t, steps);
      StepRefines(d, mark, t, s);
      var acts := ActsIn(steps[1..]);
      assert s.Write? ==> ([s.act] + acts)[0] == s.act && ([s.act] + acts)[1..] == acts;
      assert s.Notify? ==> [] + acts == acts;
      if Take(d, mark, t, s).Some? {
        RestInOrder(d, mark, t, steps);
        TakenIsPerformed(d, mark, Take(d, mark, t, s).value, steps[1..]);
      }
    }
  }

  lemma PerformedOne(b: Books, status: MembershipStatus)
    ensures AllPerformed(b, [Observe(status)])
  {
    assert [Observe(status)][1..] == [];
  }

  lemma PerformedTwo(b: Books, a: Act, status: MembershipStatus)
    ensures AllPerformed(b, [a, Observe(status)]) <==> Perform(b, a).Some?
  {
    hide Perform;
    assert [a, Observe(status)][1..] == [Observe(status)];
    if Perform(b, a).Some? { PerformedOne(Perform(b, a).value, status); }
  }

  lemma PerformedUnlessFails(o: Office, b: Books)
    requires Sound(o, b) && PlanOf(o, b).Some?
    ensures AllPerformed(b, Acts(PlanOf(o, b).value)) <==> !Fails(o, b)
  {
    hide PlanOf, ValidInvoice, ValidMembership, Sound, HasDays, AllPerformed, Current;
    var p := PlanOf(o, b).value;
    PerformedOne(b, p.status);
    if p.renewTo.Some? {
      RenewalAdmitted(o, b);
      PerformedTwo(b, Renew(p.renewTo.value), p.status);
      assert Acts(p) == [Renew(p.renewTo.value), Observe(p.status)];
    } else if p.invoice.Some? {
      PerformedTwo(b, Raise(p.invoice.value.name, p.invoice.value.spec), p.status);
      assert Acts(p) == [Raise(p.invoice.value.name, p.invoice.value.spec), Observe(p.status)];
    } else {
      assert Acts(p) == [Observe(p.status)];
    }
  }

  /** On the tables a reconcile gets through exactly when the one on the books does not throw. */
  lemma GetsThroughUnlessFails(d: Desk, t: Tables<Doc>)
    requires Billable(d, t)
    ensures var o, b := OfficeOf(d, t), BooksOf(t, d.tenant, d.name);
            PlanOf(o, b).Some? && AllTaken(d, t.rows[MembershipKey(d.tenant, d.name)].fence, t, PlannedSteps(d, t))
            <==> !Fails(o, b)
  {
    hide MaxRevision, Ready, BooksOf, OfficeOf, Sound, HasDays, PlanOf, AllTaken, AllPerformed, PlannedSteps, Fails;
    ReadyHasRow(d, t);
    StoredDays(d, t);
    var o, b := OfficeOf(d, t), BooksOf(t, d.tenant, d.name);
    PlanInOrder(d, t);
    TakenIsPerformed(d, t.rows[MembershipKey(d.tenant, d.name)].fence, t, PlannedSteps(d, t));
    if PlanOf(o, b).Some? { PerformedUnlessFails(o, b); } else { NoPlanFails(o, b); }
  }

  lemma NoPlanFails(o: Office, b: Books)
    requires HasDays(b) && PlanOf(o, b).None?
    ensures Fails(o, b)
  {}

  lemma StoredDays(d: Desk, t: Tables<Doc>)
    requires Billable(d, t)
    ensures HasDays(BooksOf(t, d.tenant, d.name))
    ensures BooksOf(t, d.tenant, d.name).term.endsOn.Some? ==> Dates.IsDay(BooksOf(t, d.tenant, d.name).term.endsOn.value)
  {}

  /**
   A reconcile on the tables is a reconcile on the books; it commits one revision for each
   thing it changes and one more at most for the notice of a move, and nothing at all when
   it neither changes anything nor moves.
   */
  lemma ReconcileRefines(d: Desk, t: Tables<Doc>)
    requires Billable(d, t)
    ensures var t' := ReconcileTables(d, t);
            var o, b := OfficeOf(d, t), BooksOf(t, d.tenant, d.name);
            && Billable(d, t') && OfficeOf(d, t') == o
            && BooksOf(t', d.tenant, d.name) == Reconcile(o, b)
            && MaxRevision(t.rows) + Changes(b, Planned(o, b)) <= MaxRevision(t'.rows)
            && MaxRevision(t'.rows) <= MaxRevision(t.rows) + Changes(b, Planned(o, b)) + (if Moves(o, b) then 1 else 0)
            && (Changes(b, Planned(o, b)) == 0 && !Moves(o, b) ==> t' == t)
  {
    hide MaxRevision, Ready, BooksOf, Sound, HasDays, TierOf, Planned, CommitAll, Changes, Fails, Moves, PlannedSteps;
    ReadyHasRow(d, t);
    var o, b := OfficeOf(d, t), BooksOf(t, d.tenant, d.name);
    PlanInOrder(d, t);
    WritesRefine(d, t.rows[MembershipKey(d.tenant, d.name)].fence, t, PlannedSteps(d, t));
    NoticeWithMove(d, t);
    ReconcileApproaches(o, b);
    TierKept(o, b);
  }

  /** A renewal keeps the membership's tier, so it is read against the same one. */
  lemma TierKept(o: Office, b: Books)
    requires Sound(o, b)
    ensures Reconcile(o, b).term.tier == b.term.tier
  {
    hide Evaluate, Sound, HasDays, ValidInvoice, ValidMembership;
    CrashPoints(o, b, 0);
    if PlanOf(o, b).Some? && PlanOf(o, b).value.renewTo.Some? { RenewedTermShape(o, b); }
  }

  // --------------------------------------------------------------------------
  // The loop on the tables
  // --------------------------------------------------------------------------

  ghost function AgainOnTables(d: Desk, t: Tables<Doc>, n: nat): (r: Tables<Doc>)
    requires Billable(d, t)
    ensures Billable(d, r) && OfficeOf(d, r) == OfficeOf(d, t)
    decreases n
  {
    ReconcileRefines(d, t);
    if n == 0 then t else AgainOnTables(d, ReconcileTables(d, t), n - 1)
  }

  lemma {:induction false} AgainRefines(d: Desk, t: Tables<Doc>, n: nat)
    requires Billable(d, t)
    ensures BooksOf(AgainOnTables(d, t, n), d.tenant, d.name) == Again(OfficeOf(d, t), BooksOf(t, d.tenant, d.name), n)
    decreases n
  {
    hide MaxRevision, Ready, BooksOf, Sound, HasDays, TierOf, ReconcileTables, Reconcile, OfficeOf;
    ReconcileRefines(d, t);
    if n > 0 { AgainRefines(d, ReconcileTables(d, t), n - 1); }
  }

  /**
   The renewal loop goes quiet on the real store: after at most one reconcile more than
   its distance, another one returns the very same tables, so no revision is committed
   and nothing re-triggers the loop.
   */
  lemma GoesQuiet(d: Desk, t: Tables<Doc>, n: nat)
    requires Billable(d, t) && n > Distance(OfficeOf(d, t), BooksOf(t, d.tenant, d.name))
    ensures var r := AgainOnTables(d, t, n);
            && BooksOf(r, d.tenant, d.name) == Rest(OfficeOf(d, t), BooksOf(t, d.tenant, d.name))
            && ReconcileTables(d, r) == r
  {
    hide MaxRevision, Ready, BooksOf, Sound, HasDays, TierOf, ReconcileTables, Reconcile, OfficeOf, Distance;
    hide Planned, Changes, Rest, Again;
    ReadyHasRow(d, t);
    var o, b := OfficeOf(d, t), BooksOf(t, d.tenant, d.name);
    AgainRefines(d, t, n);
    RestIsReached(o, b, n);
    NoChangeAtRest(o, b);
    RestIsQuiet(o, b);
    ReconcileRefines(d, AgainOnTables(d, t, n));
  }

  /** The revisions committed on the way: the writes to rest, and a notice at most for each move. */
  lemma {:induction false} RevisionsToQuiet(d: Desk, t: Tables<Doc>, n: nat)
    requires Billable(d, t)
    ensures MaxRevision(AgainOnTables(d, t, n).rows) <=
            MaxRevision(t.rows) + WritesToRest(OfficeOf(d, t), BooksOf(t, d.tenant, d.name))
            + Distance(OfficeOf(d, t), BooksOf(t, d.tenant, d.name))
    decreases n
  {
    hide MaxRevision, Ready, BooksOf, Sound, HasDays, TierOf, ReconcileTables, OfficeOf, Distance, Planned;
    hide Changes, Moves, Reconcile, Typed, MembershipKey;
    ReadyHasRow(d, t);
    var o, b := OfficeOf(d, t), BooksOf(t, d.tenant, d.name);
    ReconcileRefines(d, t);
    if n > 0 {
      RevisionsToQuiet(d, ReconcileTables(d, t), n - 1);
      ReconcileApproaches(o, b);
      if !Moves(o, b) { NoMoreWrites(o, b); }
    }
  }

  lemma NoMoreWrites(o: Office, b: Books)
    requires Sound(o, b) && !Moves(o, b)
    ensures var r := Reconcile(o, b); Sound(o, r) && WritesToRest(o, r) == 0
  {
    hide Sound, HasDays, Distance, Planned, Changes, Moves, Reconcile;
    ReconcileApproaches(o, b);
    NoChangeAtRest(o, b);
  }

  /** That is linear in the membership's paid invoices. */
  lemma RevisionsAreLinear(d: Desk, t: Tables<Doc>, n: nat)
    requires Billable(d, t)
    ensures var o, b := OfficeOf(d, t), BooksOf(t, d.tenant, d.name);
            MaxRevision(AgainOnTables(d, t, n).rows) <=
            MaxRevision(t.rows) + 6 * |set m | m in b.invoices && PaidEver(o, b, m)| + 4
  {
    hide MaxRevision, Ready, BooksOf, Sound, HasDays, TierOf, OfficeOf, PaidEver;
    ReadyHasRow(d, t);
    var o, b := OfficeOf(d, t), BooksOf(t, d.tenant, d.name);
    RevisionsToQuiet(d, t, n);
    WritesAreLinear(o, b);
    DistanceIsLinear(o, b);
  }

  // --------------------------------------------------------------------------
  // Crashes on the tables
  // --------------------------------------------------------------------------

  function Prefix(steps: seq<Step>, k: nat): seq<Step> { if k < |steps| then steps[..k] else steps }

  /** The process dies after `k` of the reconcile's steps. */
  ghost function CrashTables(d: Desk, t: Tables<Doc>, k: nat): Tables<Doc>
    requires Billable(d, t)
  {
    CommitAll(d, t.rows[MembershipKey(d.tenant, d.name)].fence, t, Prefix(PlannedSteps(d, t), k))
  }

  /** How many of those steps were writes of the plan. */
  ghost function BookPoint(d: Desk, t: Tables<Doc>, k: nat): nat
    requires Billable(d, t)
  {
    |ActsIn(Prefix(PlannedSteps(d, t), k))|
  }

  lemma ActsOfPrefix(steps: seq<Step>, k: nat)
    ensures var n := |ActsIn(Prefix(steps, k))|;
            n <= |ActsIn(steps)| && ActsIn(Prefix(steps, k)) == ActsIn(steps)[..n]
  {
    if k < |steps| {
      assert steps == steps[..k] + steps[k..];
      ActsInSplits(steps[..k], steps[k..]);
    }
  }

  /** Every number of writes is where some crash stops. */
  lemma {:induction false} PointFor(steps: seq<Step>, n: nat) returns (k: nat)
    requires n <= |ActsIn(steps)|
    ensures k <= |steps| && |ActsIn(steps[..k])| == n
    decreases |steps|
  {
    if n == |ActsIn(steps)| {
      k := |steps|;
      assert steps[..k] == steps;
    } else {
      var m := |steps| - 1;
      assert steps == steps[..m] + [steps[m]];
      ActsInSplits(steps[..m], [steps[m]]);
      OneStep(steps[m]);
      k := PointFor(steps[..m], n);
      assert steps[..m][..k] == steps[..k];
    }
  }

  lemma PrefixOrder(d: Desk, mark: int, t: Tables<Doc>, steps: seq<Step>, k: nat)
    requires InOrder(d, mark, t, steps)
    ensures InOrder(d, mark, t, Prefix(steps, k))
  {
    forall i | 0 <= i < |Prefix(steps, k)| ensures InPlace(d, mark, t, Prefix(steps, k)[i], i, |Prefix(steps, k)|) {
      assert InPlace(d, mark, t, steps[i], i, |steps|);
    }
  }

  lemma CrashRefines(d: Desk, t: Tables<Doc>, k: nat)
    requires Billable(d, t)
    ensures var t' := CrashTables(d, t, k);
            var o, b := OfficeOf(d, t), BooksOf(t, d.tenant, d.name);
            && Billable(d, t') && OfficeOf(d, t') == o
            && BooksOf(t', d.tenant, d.name) == Crash(o, b, BookPoint(d, t, k))
  {
    hide MaxRevision, Ready, BooksOf, Sound, HasDays, TierOf, Planned, CommitAll, Changes, PlannedSteps, InOrder;
    ReadyHasRow(d, t);
    var o, b := OfficeOf(d, t), BooksOf(t, d.tenant, d.name);
    var steps := PlannedSteps(d, t);
    PlanInOrder(d, t);
    PrefixOrder(d, t.rows[MembershipKey(d.tenant, d.name)].fence, t, steps, k);
    WritesRefine(d, t.rows[MembershipKey(d.tenant, d.name)].fence, t, Prefix(steps, k));
    ActsOfPrefix(steps, k);
    var n := BookPoint(d, t, k);
    assert n == |Planned(o, b)| ==> Planned(o, b)[..n] == Planned(o, b);
    CrashIsSound(o, b, n);
    CrashPoints(o, b, n);
    MoveKeepsTier(o, b);
    TierKept(o, b);
  }

  lemma MoveKeepsTier(o: Office, b: Books)
    requires HasDays(b)
    ensures Move(o, b).term.tier == b.term.tier
  {
    hide PlanOf, ValidInvoice, Current, HasDays, InvoiceName;
    if PlanOf(o, b).Some? && PlanOf(o, b).value.renewTo.Some? { RenewedTermShape(o, b); }
  }

  /** Any number of reconciles on the tables, each killed after some prefix of its writes. */
  ghost function CrashesTables(d: Desk, t: Tables<Doc>, ks: seq<nat>): (r: Tables<Doc>)
    requires Billable(d, t)
    ensures Billable(d, r) && OfficeOf(d, r) == OfficeOf(d, t)
    decreases |ks|
  {
    if ks == [] then t
    else
      CrashRefines(d, t, ks[0]);
      CrashesTables(d, CrashTables(d, t, ks[0]), ks[1..])
  }

  /** The same deaths, counted in writes of the plan. */
  ghost function BookPoints(d: Desk, t: Tables<Doc>, ks: seq<nat>): seq<nat>
    requires Billable(d, t)
    decreases |ks|
  {
    if ks == [] then []
    else
      CrashRefines(d, t, ks[0]);
      [BookPoint(d, t, ks[0])] + BookPoints(d, CrashTables(d, t, ks[0]), ks[1..])
  }

  lemma {:induction false} CrashesRefine(d: Desk, t: Tables<Doc>, ks: seq<nat>)
    requires Billable(d, t)
    ensures BooksOf(CrashesTables(d, t, ks), d.tenant, d.name) ==
            Crashes(OfficeOf(d, t), BooksOf(t, d.tenant, d.name), BookPoints(d, t, ks))
    decreases |ks|
  {
    hide MaxRevision, Ready, BooksOf, Sound, HasDays, TierOf, CrashTables, Crash, OfficeOf, BookPoint;
    ReadyHasRow(d, t);
    if ks != [] {
      CrashRefines(d, t, ks[0]);
      var rest := BookPoints(d, CrashTables(d, t, ks[0]), ks[1..]);
      CrashesRefine(d, CrashTables(d, t, ks[0]), ks[1..]);
      assert ([BookPoint(d, t, ks[0])] + rest)[1..] == rest;
    }
  }

  lemma CrashAt(d: Desk, t: Tables<Doc>, n: nat) returns (k: nat)
    requires Billable(d, t)
    ensures var o, b := OfficeOf(d, t), BooksOf(t, d.tenant, d.name); Crash(o, b, BookPoint(d, t, k)) == Crash(o, b, n)
  {
    hide Ready, BooksOf, OfficeOf, Sound, HasDays, PlannedSteps, Planned;
    ReadyHasRow(d, t);
    PlanInOrder(d, t);
    var steps := PlannedSteps(d, t);
    var all := |ActsIn(steps)|;
    k := PointFor(steps, if n < all then n else all);
    assert Prefix(steps, k) == steps[..k];
  }

  /** Whatever deaths the books can suffer, the tables can. */
  lemma {:induction false} TablePoints(d: Desk, t: Tables<Doc>, ns: seq<nat>) returns (ks: seq<nat>)
    requires Billable(d, t)
    ensures BooksOf(CrashesTables(d, t, ks), d.tenant, d.name) ==
            Crashes(OfficeOf(d, t), BooksOf(t, d.tenant, d.name), ns)
    decreases |ns|
  {
    hide MaxRevision, Ready, BooksOf, Sound, HasDays, TierOf, CrashTables, Crash, OfficeOf, BookPoint;
    ReadyHasRow(d, t);
    ks := [];
    if ns != [] {
      var k := CrashAt(d, t, ns[0]);
      CrashRefines(d, t, k);
      CrashIsSound(OfficeOf(d, t), BooksOf(t, d.tenant, d.name), ns[0]);
      var rest := TablePoints(d, CrashTables(d, t, k), ns[1..]);
      ks := [k] + rest;
      assert ks[1..] == rest;
    }
  }

  /** Dying never takes the loop further from rest. */
  lemma {:induction false} CrashesApproach(o: Office, b: Books, ks: seq<nat>)
    requires Sound(o, b)
    ensures Distance(o, Crashes(o, b, ks)) <= Distance(o, b)
    decreases |ks|
  {
    hide Reconcile, Move, Moves, Distance, Sound, HasDays, Crash;
    if ks != [] {
      CrashPoints(o, b, ks[0]);
      MoveApproaches(o, b);
      ReconcileApproaches(o, b);
      CrashIsSound(o, b, ks[0]);
      CrashesApproach(o, Crash(o, b, ks[0]), ks[1..]);
    }
  }

  /**
   On the store: kill any number of reconciles, each after any of its writes, let the loop
   run on, and the membership and its invoices end where they would have ended, in no
   more reconciles; the status too, unless the reconcile at rest is one that throws.
   */
  lemma CrashThenQuiet(d: Desk, t: Tables<Doc>, ks: seq<nat>, n: nat)
    requires Billable(d, t)
    requires n > Distance(OfficeOf(d, t), BooksOf(t, d.tenant, d.name))
    ensures var crashed := BooksOf(AgainOnTables(d, CrashesTables(d, t, ks), n), d.tenant, d.name);
            var whole := BooksOf(AgainOnTables(d, t, n), d.tenant, d.name);
            && crashed.term == whole.term && crashed.invoices == whole.invoices
            && (!Fails(OfficeOf(d, t), whole) ==> crashed == whole)
  {
    hide MaxRevision, Ready, BooksOf, Sound, HasDays, TierOf, CrashesTables, ReconcileTables, Distance, Planned, Rest;
    hide Crashes, Evaluate, ValidInvoice, OfficeOf;
    ReadyHasRow(d, t);
    var o, b := OfficeOf(d, t), BooksOf(t, d.tenant, d.name);
    CrashesRefine(d, t, ks);
    CrashesApproach(o, b, BookPoints(d, t, ks));
    GoesQuiet(d, t, n);
    GoesQuiet(d, CrashesTables(d, t, ks), n);
    CrashConfluence(o, b, BookPoints(d, t, ks));
  }

  /** The status after those deaths and `n` reconciles that complete. */
  ghost function StatusAfter(d: Desk, t: Tables<Doc>, ks: seq<nat>, n: nat): Option<MembershipStatus>
    requires Billable(d, t)
  {
    BooksOf(AgainOnTables(d, CrashesTables(d, t, ks), n), d.tenant, d.name).status
  }

  lemma StatusAtRest(d: Desk, t: Tables<Doc>, ks: seq<nat>, ns: seq<nat>, n: nat)
    requires Billable(d, t)
    requires n > Distance(OfficeOf(d, t), BooksOf(t, d.tenant, d.name))
    requires BooksOf(CrashesTables(d, t, ks), d.tenant, d.name) ==
             Crashes(OfficeOf(d, t), BooksOf(t, d.tenant, d.name), ns)
    ensures StatusAfter(d, t, ks, n) ==
            Rest(OfficeOf(d, t), Crashes(OfficeOf(d, t), BooksOf(t, d.tenant, d.name), ns)).status
  {
    hide MaxRevision, Ready, BooksOf, Sound, HasDays, TierOf, CrashesTables, ReconcileTables, Distance, Planned, Rest;
    hide Crashes, Evaluate, ValidInvoice, OfficeOf;
    ReadyHasRow(d, t);
    CrashesApproach(OfficeOf(d, t), BooksOf(t, d.tenant, d.name), ns);
    GoesQuiet(d, CrashesTables(d, t, ks), n);
  }

  /** And whether dying can show in the final status on the store is the books' own condition. */
  lemma CrashesShowOnTables(d: Desk, t: Tables<Doc>, n: nat)
    requires Billable(d, t)
    requires n > Distance(OfficeOf(d, t), BooksOf(t, d.tenant, d.name))
    ensures (exists ks :: StatusAfter(d, t, ks, n) != StatusAfter(d, t, [], n))
            <==> LastReportIsNew(OfficeOf(d, t), BooksOf(t, d.tenant, d.name))
  {
    hide MaxRevision, Ready, BooksOf, Sound, HasDays, TierOf, Distance, Planned, Rest, OfficeOf, BookPoint, CrashTables;
    hide LastReportIsNew, StatusAfter, Evaluate, ValidInvoice;
    ReadyHasRow(d, t);
    var o, b := OfficeOf(d, t), BooksOf(t, d.tenant, d.name);
    StatusAtRest(d, t, [], [], n);
    CrashesStatusExact(o, b);
    if ks: seq<nat> :| StatusAfter(d, t, ks, n) != StatusAfter(d, t, [], n) {
      CrashesRefine(d, t, ks);
      StatusAtRest(d, t, ks, BookPoints(d, t, ks), n);
    }
    if CrashesShow(o, b) {
      var ns: seq<nat> :| Rest(o, Crashes(o, b, ns)).status != Rest(o, b).status;
      var ks := TablePoints(d, t, ns);
      StatusAtRest(d, t, ks, ns, n);
    }
  }
}
