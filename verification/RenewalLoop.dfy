/**
 The renewal loop on a fixed day, with nobody else writing: does it come to rest, where,
 after how many writes, and does it matter if it dies half way?

 `Books` is what the loop reads and writes about one membership: its term, its status,
 and every dues invoice of the association, tombstoned ones included (re-admitting
 one revives it with the status it had).
 */
module RenewalLoop {
  import opened Wrappers
  import Calendar
  import opened Periods
  import opened Dates
  import opened DateArithmetic
  import opened Kinds
  import opened Renewal

  datatype Invoice = Invoice(spec: InvoiceSpec, status: Option<InvoiceStatus>, live: bool)

  datatype Books = Books(term: MembershipSpec, status: Option<MembershipStatus>, invoices: map<string, Invoice>)

  /** What stays fixed: the membership's name, its tier, and the day. */
  datatype Office = Office(name: string, tier: Option<TierSpec>, today: string)

  /** The writes of one reconcile, in order. */
  datatype Act =
    | Raise(name: string, spec: InvoiceSpec)
    | Renew(term: MembershipSpec)
    | Observe(status: MembershipStatus)

  // --------------------------------------------------------------------------
  // One reconcile
  // --------------------------------------------------------------------------

  /** Stored specs are their own normal form, and invoices bill forward. */
  ghost predicate Sound(o: Office, b: Books): (r: bool)
    ensures r ==> HasDays(b)
  {
    && StoredMembership(b.term)
    && (StoredHasDays(b);
        forall e :: IsDay(e) && InvoiceName(o.name, e) in b.invoices ==> BillsForward(b.invoices[InvoiceName(o.name, e)], e))
  }

  ghost predicate BillsForward(i: Invoice, from: string) {
    IsDay(i.spec.periodEnd) && Less(from, i.spec.periodEnd)
  }

  predicate HasDays(b: Books) { b.term.endsOn.Some? ==> IsDay(b.term.endsOn.value) }

  /** What the validator let through ends on a day. */
  lemma StoredHasDays(b: Books)
    requires StoredMembership(b.term)
    ensures HasDays(b)
  {
    hide IsDay, Less, Trim;
  }

  function Current(o: Office, b: Books): Option<Billed> {
    if b.term.endsOn.None? then None
    else
      var name := InvoiceName(o.name, b.term.endsOn.value);
      if name in b.invoices && b.invoices[name].live then Some(Billed(b.invoices[name].spec, b.invoices[name].status))
      else None
  }

  function PlanOf(o: Office, b: Books): Option<Plan>
    requires HasDays(b)
  {
    Evaluate(o.name, b.term, o.tier, Current(o, b), o.today)
  }

  /** Invoice first, then the term, then the status. */
  function Acts(p: Plan): seq<Act> {
    (if p.invoice.Some? then [Raise(p.invoice.value.name, p.invoice.value.spec)] else [])
    + (if p.renewTo.Some? then [Renew(p.renewTo.value)] else [])
    + [Observe(p.status)]
  }

  function Planned(o: Office, b: Books): seq<Act>
    requires HasDays(b)
  {
    if PlanOf(o, b).None? then [] else Acts(PlanOf(o, b).value)
  }

  /** One admitted write; `None` when its validator refuses it. */
  function Perform(b: Books, a: Act): Option<Books> {
    match a
    case Raise(name, spec) =>
      if ValidInvoice(spec).None? then None
      else
        var status := if name in b.invoices then b.invoices[name].status else None;
        Some(b.(invoices := b.invoices[name := Invoice(ValidInvoice(spec).value, status, true)]))
    case Renew(spec) =>
      if ValidMembership(spec).None? then None else Some(b.(term := ValidMembership(spec).value))
    case Observe(status) => Some(b.(status := Some(status)))
  }

  /** Writes in order, up to the first that throws. */
  function Run(b: Books, acts: seq<Act>): Books
    decreases |acts|
  {
    if acts == [] || Perform(b, acts[0]).None? then b
    else Run(Perform(b, acts[0]).value, acts[1..])
  }

  function Reconcile(o: Office, b: Books): Books
    requires HasDays(b)
  {
    Run(b, Planned(o, b))
  }

  /** The process dies after `k` writes. */
  function Crash(o: Office, b: Books, k: nat): Books
    requires HasDays(b)
  {
    Run(b, if k < |Planned(o, b)| then Planned(o, b)[..k] else Planned(o, b))
  }

  // --------------------------------------------------------------------------
  // What one reconcile does
  // --------------------------------------------------------------------------

  /** The reconcile throws: the rule cannot print the due date, or the invoice is refused. */
  predicate Fails(o: Office, b: Books)
    requires HasDays(b)
  {
    || PlanOf(o, b).None?
    || (PlanOf(o, b).value.invoice.Some? && ValidInvoice(PlanOf(o, b).value.invoice.value.spec).None?)
  }

  /** The write that changes something other than the status, if one is planned. */
  function Move(o: Office, b: Books): Books
    requires HasDays(b)
  {
    if Fails(o, b) then b
    else
      var p := PlanOf(o, b).value;
      if p.invoice.Some? then Perform(b, Raise(p.invoice.value.name, p.invoice.value.spec)).value
      else if p.renewTo.Some? then b.(term := p.renewTo.value)
      else b
  }

  function Report(o: Office, b: Books): Option<MembershipStatus>
    requires HasDays(b)
  {
    if Fails(o, b) then b.status else Some(PlanOf(o, b).value.status)
  }

  predicate Moves(o: Office, b: Books)
    requires HasDays(b)
  {
    !Fails(o, b) && (PlanOf(o, b).value.invoice.Some? || PlanOf(o, b).value.renewTo.Some?)
  }

  /** A planned renewal is always admitted, as it stands. */
  lemma RenewalAdmitted(o: Office, b: Books)
    requires Sound(o, b) && PlanOf(o, b).Some? && PlanOf(o, b).value.renewTo.Some?
    ensures var next := PlanOf(o, b).value.renewTo.value;
            && ValidMembership(next) == Some(next)
            && next.endsOn.Some? && IsDay(next.endsOn.value) && Less(b.term.endsOn.value, next.endsOn.value)
            && PlanOf(o, b).value.invoice.None?
  {
    hide IsDay, Less, Trim, ValidMembership, StoredMembership, Evaluate;
    WriteTable(o.name, b.term, o.tier, Current(o, b), o.today);
    var e := b.term.endsOn.value;
    var i := b.invoices[InvoiceName(o.name, e)];
    assert BillsForward(i, e);
    RenewedTermValidates(b.term, i.spec.periodEnd);
    LessAsymmetric(e, i.spec.periodEnd);
    RenewedTermShape(o, b);
  }

  lemma RenewedTermShape(o: Office, b: Books)
    requires HasDays(b) && PlanOf(o, b).Some? && PlanOf(o, b).value.renewTo.Some?
    ensures Current(o, b).Some? && b.term.endsOn.Some?
    ensures PlanOf(o, b).value.renewTo.value ==
              b.term.(startsOn := b.term.endsOn.value, endsOn := Some(Current(o, b).value.spec.periodEnd))
  {
    hide IsDay, Less, PeriodAfter, DaysAfter;
  }

  lemma LessAsymmetric(a: string, b: string)
    requires IsDay(a) && IsDay(b) && Less(a, b)
    ensures !Less(b, a)
  {
    hide IsDay, Less;
    LexicographicIsChronological(a, b);
    LexicographicIsChronological(b, a);
  }

  /**
   Every way a reconcile can stop, crash or not: before the move, after it, or after the
   status. The move is all or nothing.
   */
  lemma CrashPoints(o: Office, b: Books, k: nat)
    requires Sound(o, b)
    ensures Crash(o, b, k) == b || Crash(o, b, k) == Move(o, b) || Crash(o, b, k) == Reconcile(o, b)
    ensures Reconcile(o, b) == Move(o, b).(status := Report(o, b))
    ensures k == 0 ==> Crash(o, b, k) == b
    ensures k == 1 && Moves(o, b) ==> Crash(o, b, k) == Move(o, b)
    ensures k >= 2 ==> Crash(o, b, k) == Reconcile(o, b)
    ensures !Moves(o, b) ==> Move(o, b) == b
  {
    hide IsDay, Less, Trim, ValidMembership, ValidInvoice, StoredMembership, Evaluate, Sound;
    if PlanOf(o, b).Some? {
      var p := PlanOf(o, b).value;
      if p.renewTo.Some? { RenewalAdmitted(o, b); }
      var move := if p.invoice.Some? then [Raise(p.invoice.value.name, p.invoice.value.spec)]
                  else if p.renewTo.Some? then [Renew(p.renewTo.value)] else [];
      if p.invoice.Some? { InvoiceOrRenewal(o, b); }
      assert Acts(p) == move + [Observe(p.status)];
      PrefixesOfActs(b, move, p.status, k);
    }
  }

  lemma InvoiceOrRenewal(o: Office, b: Books)
    requires HasDays(b) && PlanOf(o, b).Some? && PlanOf(o, b).value.invoice.Some?
    ensures PlanOf(o, b).value.renewTo.None?
  {
    WriteTable(o.name, b.term, o.tier, Current(o, b), o.today);
  }

  lemma PrefixesOfActs(b: Books, move: seq<Act>, status: MembershipStatus, k: nat)
    requires |move| <= 1
    ensures var acts := move + [Observe(status)];
            var cut := if k < |acts| then acts[..k] else acts;
            var failed := |move| == 1 && Perform(b, move[0]).None?;
            var moved := if failed || move == [] then b else Perform(b, move[0]).value;
            && Run(b, acts) == (if failed then b else moved.(status := Some(status)))
            && Run(b, cut) == (if failed || k == 0 then b
                               else if k == 1 && |move| == 1 then moved
                               else moved.(status := Some(status)))
  {
    var acts := move + [Observe(status)];
    forall c ensures Run(c, [Observe(status)]) == c.(status := Some(status)) { assert [Observe(status)][1..] == []; }
    if |move| == 1 {
      assert acts[1..] == [Observe(status)] && acts[..1] == move && acts[..1][1..] == [];
    } else {
      assert acts == [Observe(status)];
    }
  }

  /** The status is written, never read: nothing but the status depends on it. */
  lemma StatusIsOnlyWritten(o: Office, b: Books, s: Option<MembershipStatus>)
    requires HasDays(b)
    ensures var c := b.(status := s);
            && HasDays(c) && PlanOf(o, c) == PlanOf(o, b) && (Fails(o, c) <==> Fails(o, b))
            && (Moves(o, c) <==> Moves(o, b))
            && Move(o, c) == Move(o, b).(status := s)
    ensures Sound(o, b) ==> Sound(o, b.(status := s))
  {
    hide Evaluate, ValidInvoice, IsDay;
  }

  // --------------------------------------------------------------------------
  // How far a membership can still move
  // --------------------------------------------------------------------------

  /** An invoice of this membership, paid, for a term not yet left behind. */
  predicate PaidAhead(o: Office, b: Books, n: string)
    requires HasDays(b) && b.term.endsOn.Some?
  {
    && n in b.invoices && b.invoices[n].status.Some? && b.invoices[n].status.value.state == Paid
    && |n| == |o.name| + 11 && n[..|o.name| + 1] == o.name + "-"
    && IsDay(n[|o.name| + 1..]) && !Less(n[|o.name| + 1..], b.term.endsOn.value)
  }

  function Ahead(o: Office, b: Books): set<string>
    requires HasDays(b) && b.term.endsOn.Some?
  {
    set n | n in b.invoices && PaidAhead(o, b, n)
  }

  /** Two for each paid term ahead, one for a term whose invoice is still to be raised. */
  function Distance(o: Office, b: Books): nat
    requires HasDays(b)
  {
    if b.term.endsOn.None? then 0
    else 2 * |Ahead(o, b)| + (if Current(o, b).None? then 1 else 0)
  }

  lemma NameSplits(o: Office, e: string)
    requires IsDay(e)
    ensures var n := InvoiceName(o.name, e);
            |n| == |o.name| + 11 && n[..|o.name| + 1] == o.name + "-" && n[|o.name| + 1..] == e
  {}

  lemma RaiseApproaches(o: Office, b: Books)
    requires Sound(o, b) && !Fails(o, b) && PlanOf(o, b).value.invoice.Some?
    ensures var m := Move(o, b); Sound(o, m) && Distance(o, m) < Distance(o, b)
    ensures b.term.endsOn.Some? && Current(o, b).None? && Move(o, b).term == b.term
  {
    hide IsDay, Less, Trim, ValidInvoice, ValidMembership, Evaluate, PeriodAfter, DaysAfter;
    var m := Move(o, b);
    WriteTable(o.name, b.term, o.tier, Current(o, b), o.today);
    RaisedInvoiceValidates(o.name, b.term, o.tier, o.today);
    var e := b.term.endsOn.value;
    forall d | IsDay(d) && InvoiceName(o.name, d) in m.invoices
      ensures BillsForward(m.invoices[InvoiceName(o.name, d)], d)
    {
      if InvoiceName(o.name, d) == InvoiceName(o.name, e) {
        InvoiceNamesAreIdentities(o.name, d, o.name, e);
      } else {
        assert BillsForward(b.invoices[InvoiceName(o.name, d)], d);
      }
    }
    assert Ahead(o, m) == Ahead(o, b);
  }

  lemma RenewApproaches(o: Office, b: Books)
    requires Sound(o, b) && !Fails(o, b) && PlanOf(o, b).value.renewTo.Some?
    ensures var m := Move(o, b);
            && Sound(o, m) && Distance(o, m) < Distance(o, b)
            && b.term.endsOn.Some? && m.term.endsOn.Some? && Less(b.term.endsOn.value, m.term.endsOn.value)
  {
    hide IsDay, Less, Trim, ValidInvoice, ValidMembership, Evaluate, PeriodAfter, DaysAfter;
    var m := Move(o, b);
    RenewalAdmitted(o, b);
    WriteTable(o.name, b.term, o.tier, Current(o, b), o.today);
    var e, f := b.term.endsOn.value, m.term.endsOn.value;
    var n := InvoiceName(o.name, e);
    NameSplits(o, e);
    LessAsymmetric(e, f);
    assert !Less(e, e) by { LexicographicIsChronological(e, e); }
    forall k | k in Ahead(o, m) ensures k in Ahead(o, b) - {n} {
      var d := k[|o.name| + 1..];
      LexicographicIsChronological(d, f);
      LexicographicIsChronological(d, e);
      LexicographicIsChronological(e, f);
    }
    SubsetSize(Ahead(o, m), Ahead(o, b) - {n});
    assert n in Ahead(o, b);
  }

  lemma SubsetSize<T>(a: set<T>, b: set<T>)
    requires a <= b
    ensures |a| <= |b|
  {
    if a != b {
      assert !(b <= a);
      var x :| x in b && x !in a;
      SubsetSize(a, b - {x});
    }
  }

  lemma MoveApproaches(o: Office, b: Books)
    requires Sound(o, b)
    ensures Sound(o, Move(o, b))
    ensures Moves(o, b) ==> Distance(o, Move(o, b)) < Distance(o, b)
  {
    hide IsDay, Less, Trim, ValidInvoice, ValidMembership, Evaluate, Sound;
    if Moves(o, b) {
      if PlanOf(o, b).value.invoice.Some? { RaiseApproaches(o, b); } else { RenewApproaches(o, b); }
    }
  }

  lemma DistanceIgnoresStatus(o: Office, b: Books, s: Option<MembershipStatus>)
    requires HasDays(b)
    ensures Distance(o, b.(status := s)) == Distance(o, b)
  {
    hide IsDay, Less;
    if b.term.endsOn.Some? { assert Ahead(o, b.(status := s)) == Ahead(o, b); }
  }

  // --------------------------------------------------------------------------
  // Coming to rest
  // --------------------------------------------------------------------------

  lemma ReconcileApproaches(o: Office, b: Books)
    requires Sound(o, b)
    ensures var r := Reconcile(o, b);
            && Sound(o, r)
            && (Moves(o, b) ==> Distance(o, r) < Distance(o, b))
            && (!Moves(o, b) ==> !Moves(o, r) && Distance(o, r) == Distance(o, b) && Reconcile(o, r) == r)
  {
    hide IsDay, Less, Evaluate, Sound, Reconcile, Move, Distance, Moves;
    CrashPoints(o, b, 0);
    MoveApproaches(o, b);
    StatusIsOnlyWritten(o, Move(o, b), Report(o, b));
    DistanceIgnoresStatus(o, Move(o, b), Report(o, b));
    var r := Reconcile(o, b);
    CrashPoints(o, r, 0);
    if !Moves(o, b) { StatusIsOnlyWritten(o, b, Report(o, b)); }
  }

  /** Reconcile again and again until nothing but the status is left to write, then once more. */
  ghost function Rest(o: Office, b: Books): (r: Books)
    requires Sound(o, b)
    ensures Sound(o, r)
    decreases Distance(o, b)
  {
    ReconcileApproaches(o, b);
    if Moves(o, b) then Rest(o, Reconcile(o, b)) else Reconcile(o, b)
  }

  /** At rest, another reconcile writes nothing and plans no move, so it raises no notice either. */
  lemma {:induction false} RestIsQuiet(o: Office, b: Books)
    requires Sound(o, b)
    ensures Reconcile(o, Rest(o, b)) == Rest(o, b) && !Moves(o, Rest(o, b))
    decreases Distance(o, b)
  {
    hide Reconcile, Moves, Distance, Sound, HasDays;
    ReconcileApproaches(o, b);
    if Moves(o, b) { RestIsQuiet(o, Reconcile(o, b)); }
  }

  /** `n` completed reconciles in a row. */
  ghost function Again(o: Office, b: Books, n: nat): (r: Books)
    requires Sound(o, b)
    ensures Sound(o, r)
    decreases n
  {
    ReconcileApproaches(o, b);
    if n == 0 then b else Again(o, Reconcile(o, b), n - 1)
  }

  /** The loop is at rest after at most one reconcile more than its distance, and stays there. */
  lemma {:induction false} RestIsReached(o: Office, b: Books, n: nat)
    requires Sound(o, b) && n > Distance(o, b)
    ensures Again(o, b, n) == Rest(o, b)
    decreases n
  {
    hide Reconcile, Moves, Distance, Sound, HasDays;
    ReconcileApproaches(o, b);
    if Moves(o, b) {
      RestIsReached(o, Reconcile(o, b), n - 1);
    } else {
      StaysAtRest(o, Reconcile(o, b), n - 1);
    }
  }

  lemma {:induction false} StaysAtRest(o: Office, b: Books, n: nat)
    requires Sound(o, b) && Reconcile(o, b) == b
    ensures Again(o, b, n) == b
  {
    hide Reconcile, Moves, Distance, Sound, HasDays;
    if n > 0 { StaysAtRest(o, b, n - 1); }
  }

  // --------------------------------------------------------------------------
  // How many writes that takes
  // --------------------------------------------------------------------------

  /** Writes that change something; the store turns the others away without a revision. */
  function Changes(b: Books, acts: seq<Act>): nat
    decreases |acts|
  {
    if acts == [] || Perform(b, acts[0]).None? then 0
    else (if Perform(b, acts[0]).value == b then 0 else 1) + Changes(Perform(b, acts[0]).value, acts[1..])
  }

  ghost function WritesToRest(o: Office, b: Books): nat
    requires Sound(o, b)
    decreases Distance(o, b)
  {
    ReconcileApproaches(o, b);
    Changes(b, Planned(o, b)) + if Moves(o, b) then WritesToRest(o, Reconcile(o, b)) else 0
  }

  lemma {:induction false} ChangesBounded(b: Books, acts: seq<Act>)
    ensures Changes(b, acts) <= |acts|
    decreases |acts|
  {
    if acts != [] && Perform(b, acts[0]).Some? { ChangesBounded(Perform(b, acts[0]).value, acts[1..]); }
  }

  lemma StepChanges(o: Office, b: Books)
    requires Sound(o, b)
    ensures Changes(b, Planned(o, b)) <= if Moves(o, b) then 2 else 1
  {
    hide IsDay, Less, Trim, ValidInvoice, ValidMembership, Evaluate, Sound;
    ChangesBounded(b, Planned(o, b));
    if PlanOf(o, b).Some? && PlanOf(o, b).value.invoice.Some? { InvoiceOrRenewal(o, b); }
  }

  predicate PaidEver(o: Office, b: Books, n: string) {
    && n in b.invoices && b.invoices[n].status.Some? && b.invoices[n].status.value.state == Paid
    && |n| == |o.name| + 11 && n[..|o.name| + 1] == o.name + "-"
  }

  lemma DistanceIsLinear(o: Office, b: Books)
    requires Sound(o, b)
    ensures Distance(o, b) <= 2 * |set n | n in b.invoices && PaidEver(o, b, n)| + 1
  {
    hide IsDay, Less, Current;
    if b.term.endsOn.Some? { SubsetSize(Ahead(o, b), set n | n in b.invoices && PaidEver(o, b, n)); }
  }

  /** The writes it takes to come to rest are linear in the membership's paid invoices. */
  lemma WritesAreLinear(o: Office, b: Books)
    requires Sound(o, b)
    ensures WritesToRest(o, b) <= 4 * |set n | n in b.invoices && PaidEver(o, b, n)| + 3
  {
    hide IsDay, Less, Current, Distance;
    WritesBounded(o, b);
    DistanceIsLinear(o, b);
  }

  lemma {:induction false} WritesBounded(o: Office, b: Books)
    requires Sound(o, b)
    ensures WritesToRest(o, b) <= 2 * Distance(o, b) + 1
    decreases Distance(o, b)
  {
    hide Reconcile, Moves, Distance, Sound, HasDays, Changes, Planned;
    ReconcileApproaches(o, b);
    StepChanges(o, b);
    if Moves(o, b) { WritesBounded(o, Reconcile(o, b)); }
  }

  /** At rest no write is a change, so no revision is committed. */
  lemma NoChangeAtRest(o: Office, b: Books)
    requires Sound(o, b)
    ensures Changes(Rest(o, b), Planned(o, Rest(o, b))) == 0
  {
    hide IsDay, Less, Trim, Evaluate, ValidInvoice, ValidMembership, Sound;
    RestIsQuiet(o, b);
    var r := Rest(o, b);
    CrashPoints(o, r, 0);
    if PlanOf(o, r).Some? && PlanOf(o, r).value.invoice.None? {
      var p := PlanOf(o, r).value;
      assert Planned(o, r) == [Observe(p.status)];
    }
  }

  // --------------------------------------------------------------------------
  // Crash confluence
  // --------------------------------------------------------------------------

  /** Where the moves lead, leaving the status alone. */
  ghost function Home(o: Office, b: Books): (r: Books)
    requires Sound(o, b)
    ensures Sound(o, r)
    decreases Distance(o, b)
  {
    MoveApproaches(o, b);
    if Moves(o, b) then Home(o, Move(o, b)) else b
  }

  lemma {:induction false} HomeIgnoresStatus(o: Office, b: Books, s: Option<MembershipStatus>)
    requires Sound(o, b)
    ensures Sound(o, b.(status := s))
    ensures Home(o, b.(status := s)) == Home(o, b).(status := s)
    decreases Distance(o, b)
  {
    hide Move, Moves, Distance, Sound, HasDays;
    MoveApproaches(o, b);
    StatusIsOnlyWritten(o, b, s);
    MoveApproaches(o, b.(status := s));
    if Moves(o, b) { HomeIgnoresStatus(o, Move(o, b), s); }
  }

  /** Rest is home, with the report made there unless that reconcile throws. */
  lemma {:induction false} RestIsHome(o: Office, b: Books)
    requires Sound(o, b)
    ensures var h := Home(o, b);
            && Rest(o, b) == h.(status := Rest(o, b).status)
            && (!Fails(o, h) ==> Rest(o, b).status == Report(o, h))
    decreases Distance(o, b)
  {
    hide Reconcile, Move, Moves, Distance, Sound, HasDays, Evaluate, ValidInvoice;
    ReconcileApproaches(o, b);
    MoveApproaches(o, b);
    CrashPoints(o, b, 0);
    if Moves(o, b) {
      var r := Reconcile(o, b);
      RestIsHome(o, r);
      HomeIgnoresStatus(o, Move(o, b), Report(o, b));
      StatusIsOnlyWritten(o, Home(o, Move(o, b)), Report(o, b));
    }
  }

  lemma CrashIsSound(o: Office, b: Books, k: nat)
    requires Sound(o, b)
    ensures Sound(o, Crash(o, b, k))
    ensures Home(o, Crash(o, b, k)).(status := None) == Home(o, b).(status := None)
  {
    hide Reconcile, Move, Moves, Distance, Sound, HasDays, Evaluate, ValidInvoice, Crash;
    CrashPoints(o, b, k);
    MoveApproaches(o, b);
    HomeIgnoresStatus(o, Move(o, b), Report(o, b));
  }

  /** Any number of reconciles, each stopped after some prefix of its writes. */
  ghost function Crashes(o: Office, b: Books, ks: seq<nat>): (r: Books)
    requires Sound(o, b)
    ensures Sound(o, r)
    decreases |ks|
  {
    CrashIsSound(o, b, if ks == [] then 0 else ks[0]);
    if ks == [] then b else Crashes(o, Crash(o, b, ks[0]), ks[1..])
  }

  lemma {:induction false} CrashesLeadHome(o: Office, b: Books, ks: seq<nat>)
    requires Sound(o, b)
    ensures Home(o, Crashes(o, b, ks)).(status := None) == Home(o, b).(status := None)
    decreases |ks|
  {
    hide Crash, Sound, HasDays, Home;
    if ks != [] {
      CrashIsSound(o, b, ks[0]);
      CrashesLeadHome(o, Crash(o, b, ks[0]), ks[1..]);
    }
  }

  /**
   Crash confluence. However many reconciles die, wherever they die, the loop comes to
   rest on the same term and the same invoices as if none had; and on the same status
   too, unless the reconcile at rest is one that throws.
   */
  lemma CrashConfluence(o: Office, b: Books, ks: seq<nat>)
    requires Sound(o, b)
    ensures Rest(o, Crashes(o, b, ks)).term == Rest(o, b).term
    ensures Rest(o, Crashes(o, b, ks)).invoices == Rest(o, b).invoices
    ensures !Fails(o, Rest(o, b)) ==> Rest(o, Crashes(o, b, ks)) == Rest(o, b)
  {
    hide Sound, HasDays, Home, Rest, Crashes, Evaluate, ValidInvoice;
    var c := Crashes(o, b, ks);
    CrashesLeadHome(o, b, ks);
    RestIsHome(o, b);
    RestIsHome(o, c);
    StatusIsOnlyWritten(o, Home(o, b), Rest(o, b).status);
    StatusIsOnlyWritten(o, Home(o, b), Home(o, c).status);
  }

  /**
   The exception, exactly. One crash can leave a different final status if and only if
   this reconcile moves the membership to a place where the next one throws, and it
   would have reported something new: the status write it lost is then never made up for.
   */
  lemma CrashStatusExact(o: Office, b: Books)
    requires Sound(o, b)
    ensures (forall k: nat :: CrashedRest(o, b, k).status == Rest(o, b).status)
            <==> !(Moves(o, b) && ThrowsAfterMove(o, b) && b.status != Report(o, b))
  {
    hide Reconcile, Move, Moves, Distance, Sound, HasDays, Evaluate, ValidInvoice, Crash, Report, Fails;
    forall k: nat | !(Moves(o, b) && ThrowsAfterMove(o, b) && b.status != Report(o, b))
      ensures CrashedRest(o, b, k).status == Rest(o, b).status
    {
      CrashPoints(o, b, k);
      if Moves(o, b) { AfterMove(o, b); } else { ReconcileApproaches(o, b); }
    }
    if Moves(o, b) && ThrowsAfterMove(o, b) && b.status != Report(o, b) {
      CrashPoints(o, b, 1);
      AfterMove(o, b);
      assert CrashedRest(o, b, 1).status != Rest(o, b).status;
    }
  }

  ghost function CrashedRest(o: Office, b: Books, k: nat): Books
    requires Sound(o, b)
  {
    CrashIsSound(o, b, k);
    Rest(o, Crash(o, b, k))
  }

  ghost predicate ThrowsAfterMove(o: Office, b: Books)
    requires Sound(o, b)
  {
    MoveApproaches(o, b);
    Fails(o, Move(o, b))
  }

  /** Stopping between the move and the status, compared with going on. */
  lemma AfterMove(o: Office, b: Books)
    requires Sound(o, b) && Moves(o, b)
    ensures var m := Move(o, b);
            && Sound(o, m)
            && Sound(o, Reconcile(o, b))
            && Rest(o, b) == Rest(o, Reconcile(o, b))
            && (!Fails(o, m) ==> Rest(o, m) == Rest(o, b))
            && (Fails(o, m) ==> Rest(o, m).status == b.status && Rest(o, b).status == Report(o, b))
  {
    hide Distance, Sound, HasDays, Evaluate, ValidInvoice, Reconcile, Moves;
    var m := Move(o, b);
    var r := Reconcile(o, b);
    MoveApproaches(o, b);
    ReconcileApproaches(o, b);
    CrashPoints(o, b, 0);
    StatusIsOnlyWritten(o, m, Report(o, b));
    CrashPoints(o, m, 0);
    CrashPoints(o, r, 0);
    MoveKeepsStatus(o, b);
    NotMovingWhenFailing(o, m);
    if !Fails(o, m) { SameReport(o, m, Report(o, b)); }
  }

  /** Two moves in a row never report the same: one says pending, or the second renews later. */
  lemma ReportsDiffer(o: Office, b: Books)
    requires Sound(o, b) && Moves(o, b) && Sound(o, Move(o, b)) && Moves(o, Move(o, b))
    ensures Report(o, b) != Report(o, Move(o, b))
  {
    hide IsDay, Less, Trim, ValidInvoice, ValidMembership, PeriodAfter, DaysAfter, Sound, Distance, Evaluate;
    var m := Move(o, b);
    MoveReports(o, b);
    MoveReports(o, m);
    if PlanOf(o, b).value.invoice.Some? {
      RaiseThenRenew(o, b);
    } else if PlanOf(o, m).value.renewTo.Some? {
      RenewApproaches(o, m);
      LessAsymmetric(m.term.endsOn.value, Move(o, m).term.endsOn.value);
    }
  }

  /** What a reconcile that moves reports: a raised invoice is pending, a renewed term is active. */
  lemma MoveReports(o: Office, b: Books)
    requires HasDays(b) && Moves(o, b)
    ensures var p := PlanOf(o, b).value;
            && Report(o, b).Some?
            && (p.invoice.Some? <==> Report(o, b).value.state == MembershipState.Pending)
            && (p.renewTo.Some? <==> Report(o, b).value.state == Active)
            && (p.renewTo.Some? ==> Move(o, b) == b.(term := p.renewTo.value)
                                    && Report(o, b).value.renewsOn == Move(o, b).term.endsOn)
  {
    hide IsDay, Less, ValidInvoice, ValidMembership, PeriodAfter, DaysAfter, Evaluate;
    StateTable(o.name, b.term, o.tier, Current(o, b), o.today);
    WriteTable(o.name, b.term, o.tier, Current(o, b), o.today);
  }

  /** Right after its invoice is raised a term can only be renewed, not billed again. */
  lemma RaiseThenRenew(o: Office, b: Books)
    requires Sound(o, b) && !Fails(o, b) && PlanOf(o, b).value.invoice.Some?
    ensures Sound(o, Move(o, b)) && Current(o, Move(o, b)).Some?
    ensures PlanOf(o, Move(o, b)).Some? ==> PlanOf(o, Move(o, b)).value.invoice.None?
  {
    hide IsDay, Less, Trim, ValidInvoice, ValidMembership, Evaluate, PeriodAfter, DaysAfter, Sound;
    RaiseApproaches(o, b);
    WriteTable(o.name, b.term, o.tier, Current(o, b), o.today);
    var m := Move(o, b);
    if PlanOf(o, m).Some? { WriteTable(o.name, m.term, o.tier, Current(o, m), o.today); }
  }

  /** Some way of dying leaves another final status. */
  ghost predicate CrashesShow(o: Office, b: Books)
    requires Sound(o, b)
  {
    exists ks: seq<nat> :: Rest(o, Crashes(o, b, ks)).status != Rest(o, b).status
  }

  /** The last report of a run that ends in throwing is new, so losing it shows. */
  ghost predicate LastReportIsNew(o: Office, b: Books)
    requires Sound(o, b)
  {
    MoveApproaches(o, b);
    Moves(o, b) && Fails(o, Home(o, b)) && (Moves(o, Move(o, b)) || b.status != Report(o, b))
  }

  lemma ShowsAfter(o: Office, b: Books, k: nat)
    requires Sound(o, b) && Sound(o, Crash(o, b, k)) && CrashesShow(o, Crash(o, b, k))
    requires Rest(o, Crash(o, b, k)) == Rest(o, b)
    ensures CrashesShow(o, b)
  {
    hide Rest, Crash, Sound, HasDays;
    var ks: seq<nat> :| Rest(o, Crashes(o, Crash(o, b, k), ks)).status != Rest(o, Crash(o, b, k)).status;
    assert ([k] + ks)[1..] == ks;
    assert Crashes(o, b, [k] + ks) == Crashes(o, Crash(o, b, k), ks);
  }

  lemma OneCrashShows(o: Office, b: Books)
    requires Sound(o, b) && Moves(o, b) && ThrowsAfterMove(o, b) && b.status != Report(o, b)
    ensures CrashesShow(o, b)
  {
    hide Reconcile, Move, Moves, Distance, Sound, HasDays, Evaluate, ValidInvoice, Crash, Report, Fails, Rest;
    CrashPoints(o, b, 1);
    AfterMove(o, b);
    CrashIsSound(o, b, 1);
    assert [1][1..] == [];
    assert Crashes(o, b, [1]) == Crash(o, b, 1);
  }

  /** Reconciles that all complete but the last one before the throw. */
  lemma {:induction false} LaterCrashShows(o: Office, b: Books)
    requires Sound(o, b) && Moves(o, b) && Sound(o, Move(o, b)) && Moves(o, Move(o, b)) && Fails(o, Home(o, b))
    ensures CrashesShow(o, b)
    decreases Distance(o, b)
  {
    hide Reconcile, Move, Moves, Distance, Sound, HasDays, Evaluate, ValidInvoice, Crash, Report, Fails, CrashesShow;
    var m, r := Move(o, b), Reconcile(o, b);
    MoveApproaches(o, b);
    ReconcileApproaches(o, b);
    CrashPoints(o, b, 2);
    StatusIsOnlyWritten(o, m, Report(o, b));
    HomeIgnoresStatus(o, m, Report(o, b));
    MoveApproaches(o, m);
    StatusIsOnlyWritten(o, Home(o, m), Report(o, b));
    MoveApproaches(o, r);
    StatusIsOnlyWritten(o, Move(o, m), Report(o, b));
    NotMovingWhenFailing(o, m);
    SameMoveReport(o, m, Report(o, b));
    ReportsDiffer(o, b);
    if Moves(o, Move(o, r)) {
      LaterCrashShows(o, r);
    } else {
      OneCrashShows(o, r);
    }
    ShowsAfter(o, b, 2);
  }

  lemma SameMoveReport(o: Office, b: Books, s: Option<MembershipStatus>)
    requires HasDays(b) && !Fails(o, b)
    ensures HasDays(b.(status := s)) && Report(o, b.(status := s)) == Report(o, b)
  {
    hide Evaluate, ValidInvoice;
    StatusIsOnlyWritten(o, b, s);
  }

  /** With nothing to move, or only reports that stand already, dying changes nothing. */
  lemma {:induction false} QuietCrashes(o: Office, b: Books, ks: seq<nat>)
    requires Sound(o, b) && Fails(o, Home(o, b)) && !LastReportIsNew(o, b)
    ensures Rest(o, Crashes(o, b, ks)) == Rest(o, b)
    decreases |ks|
  {
    hide Reconcile, Move, Moves, Distance, Sound, HasDays, Evaluate, ValidInvoice, Crash, Report, Fails;
    if ks != [] {
      var c := Crash(o, b, ks[0]);
      CrashIsSound(o, b, ks[0]);
      CrashPoints(o, b, ks[0]);
      MoveApproaches(o, b);
      NotMovingWhenFailing(o, b);
      if Moves(o, b) {
        MoveKeepsStatus(o, b);
        var m := Move(o, b);
        NotMovingWhenFailing(o, m);
        CrashPoints(o, m, 0);
        assert Reconcile(o, b) == m;
      } else {
        assert c == b;
      }
      QuietCrashes(o, c, ks[1..]);
    }
  }

  /**
   The exception for any number of deaths, exactly. Some sequence of crash points leaves a
   different final status if and only if the moves end where the reconcile throws, and
   either there is more than one of them or the only one has something new to report.
   */
  lemma CrashesStatusExact(o: Office, b: Books)
    requires Sound(o, b)
    ensures CrashesShow(o, b) <==> LastReportIsNew(o, b)
  {
    hide Reconcile, Move, Moves, Distance, Sound, HasDays, Evaluate, ValidInvoice, Crash, Report, Fails, Home, Rest, Crashes;
    if LastReportIsNew(o, b) {
      MoveApproaches(o, b);
      if Moves(o, Move(o, b)) { LaterCrashShows(o, b); } else { HomeAfterOne(o, b); OneCrashShows(o, b); }
    } else if CrashesShow(o, b) {
      var ks: seq<nat> :| Rest(o, Crashes(o, b, ks)).status != Rest(o, b).status;
      if Fails(o, Home(o, b)) {
        QuietCrashes(o, b, ks);
      } else {
        CrashConfluence(o, b, ks);
        RestIsHome(o, b);
        StatusIsOnlyWritten(o, Home(o, b), Rest(o, b).status);
      }
    }
  }

  lemma HomeAfterOne(o: Office, b: Books)
    requires Sound(o, b) && Moves(o, b) && Sound(o, Move(o, b)) && !Moves(o, Move(o, b))
    ensures Home(o, b) == Move(o, b)
  {
    hide Move, Moves, Distance, Sound, HasDays;
  }

  lemma NotMovingWhenFailing(o: Office, b: Books)
    requires HasDays(b)
    ensures Fails(o, b) ==> !Moves(o, b) && Report(o, b) == b.status
  {}

  lemma MoveKeepsStatus(o: Office, b: Books)
    requires HasDays(b)
    ensures Move(o, b).status == b.status
  {
    hide Evaluate, ValidInvoice;
  }

  lemma SameReport(o: Office, b: Books, s: Option<MembershipStatus>)
    requires Sound(o, b) && !Fails(o, b)
    ensures var c := b.(status := s);
            Sound(o, c) && Reconcile(o, c) == Reconcile(o, b) && (Moves(o, c) <==> Moves(o, b))
  {
    hide Evaluate, ValidInvoice, Sound, HasDays, Reconcile;
    StatusIsOnlyWritten(o, b, s);
    CrashPoints(o, b, 0);
    CrashPoints(o, b.(status := s), 0);
  }

  // --------------------------------------------------------------------------
  // The exception happens
  // --------------------------------------------------------------------------

  /** A literal day, read off its digits. */
  lemma LiteralDay(s: string, x: Calendar.Date)
    requires 0 <= x.y <= 9999 && x.Valid() && s == Show(x)
    ensures IsDay(s) && Fields(s) == x
  {
    FieldsShow(x);
    IsDayExact(s);
  }

  lemma LiteralOrder(s: string, x: Calendar.Date, t: string, y: Calendar.Date)
    requires 0 <= x.y <= 9999 && x.Valid() && s == Show(x)
    requires 0 <= y.y <= 9999 && y.Valid() && t == Show(y)
    ensures IsDay(s) && IsDay(t) && (Less(s, t) <==> Calendar.Earlier(x, y))
  {
    hide IsDay, Less;
    LiteralDay(s, x);
    LiteralDay(t, y);
    LessShow(x, y);
  }

  function LastOffice(today: string): Office { Office("m", Some(TierSpec(0, Each(Annual), 0)), today) }

  function LastBooks(start: string, end: string, next: string): Books {
    Books(MembershipSpec("a", "t", start, Some(end), true), None,
          map[InvoiceName("m", end) :=
                Invoice(InvoiceSpec("m", "a", "t", 0, end, next, end), Some(InvoiceStatus(Paid, None, None)), true)])
  }

  lemma LastBooksSound(start: string, end: string, next: string, today: string)
    requires IsDay(start) && IsDay(end) && IsDay(next) && !Less(end, start) && Less(end, next)
    ensures Sound(LastOffice(today), LastBooks(start, end, next))
  {
    hide IsDay, Less, Trim;
    var o, b := LastOffice(today), LastBooks(start, end, next);
    assert StoredMembership(b.term) by {
      TightIsTrimmed("a");
      TightIsTrimmed("t");
      DayTrims(start);
      DayTrims(end);
    }
    forall e | IsDay(e) && InvoiceName(o.name, e) in b.invoices ensures BillsForward(b.invoices[InvoiceName(o.name, e)], e) {
      InvoiceNamesAreIdentities("m", e, "m", end);
    }
  }

  lemma LastBooksThrow(start: string, end: string, next: string, today: string)
    requires var o, b := LastOffice(today), LastBooks(start, end, next); Sound(o, b)
    requires IsDay(end) && IsDay(next) && !Less(today, end) && !Less(today, next) && Less(end, next)
    requires !IsDay(PeriodAfter(next, Annual))
    ensures var o, b := LastOffice(today), LastBooks(start, end, next);
            Moves(o, b) && ThrowsAfterMove(o, b) && b.status != Report(o, b)
  {
    hide IsDay, Less, Trim, Sound, StoredMembership, ValidMembership, ValidInvoice, DaysAfter, PeriodAfter;
    var o, b := LastOffice(today), LastBooks(start, end, next);
    MoveApproaches(o, b);
    var m := b.(term := b.term.(startsOn := end, endsOn := Some(next)));
    assert Move(o, b) == m;
    assert StoredMembership(m.term) by { SoundStored(o, m); }
    assert !Less(end, end) by { LexicographicIsChronological(end, end); }
    if InvoiceName("m", next) == InvoiceName("m", end) { InvoiceNamesAreIdentities("m", next, "m", end); }
    if PlanOf(o, m).Some? { RaisedInvoiceValidates("m", m.term, o.tier, today); }
  }

  lemma SoundStored(o: Office, b: Books)
    requires Sound(o, b)
    ensures StoredMembership(b.term)
  {}

  /** A paid term that ends in the last representable year: its successor cannot be billed. */
  lemma StatusCanBeLost() returns (o: Office, b: Books)
    ensures Sound(o, b)
    ensures Moves(o, b) && ThrowsAfterMove(o, b) && b.status != Report(o, b)
  {
    hide IsDay, Less, Show, Trim, Moves, Report, Sound;
    var d97, d98, d99 := Calendar.Date(9997, 6, 30), Calendar.Date(9998, 6, 30), Calendar.Date(9999, 6, 30);
    var last := Calendar.Date(9999, 12, 31);
    o, b := LastOffice(Show(last)), LastBooks(Show(d97), Show(d98), Show(d99));
    LiteralOrder(Show(d98), d98, Show(d97), d97);
    LiteralOrder(Show(d98), d98, Show(d99), d99);
    LiteralOrder(Show(last), last, Show(d98), d98);
    LiteralOrder(Show(last), last, Show(d99), d99);
    LastPeriod(Show(d99), d99);
    LastBooksSound(Show(d97), Show(d98), Show(d99), Show(last));
    LastBooksThrow(Show(d97), Show(d98), Show(d99), Show(last));
  }

  lemma DayTrims(s: string)
    requires IsDay(s)
    ensures Trim(s) == s
  {
    DayIsTight(s);
  }

  lemma LastPeriod(day: string, x: Calendar.Date)
    requires x == Calendar.Date(9999, 6, 30) && day == Show(x)
    ensures IsDay(day) && !IsDay(PeriodAfter(day, Annual))
  {
    LiteralDay(day, x);
    PeriodAfterExact(day, Annual);
  }
}
