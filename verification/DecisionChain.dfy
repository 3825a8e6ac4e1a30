/**
 The Decision ledger as a hash-linked chain with many writers. A writer reads the head
 in one step, takes a sequence number in another and inserts in a third; other writers,
 in this process or elsewhere, move in between, and any writer may stop for good at any
 point. Each parent hash is claimable once, so the insert is itself a compare-and-swap.

 The hash is abstract: one value per parent and record, never a model's own hash.
 */
module DecisionChain {
  import opened Wrappers

  datatype Hash = Model(name: string) | Of(prev: Hash, record: string)

  datatype Row = Row(seqno: nat, prev: Hash, hash: Hash, record: string, author: nat)

  const CAS_ATTEMPTS := 3

  // --------------------------------------------------------------------------
  // Chains
  // --------------------------------------------------------------------------

  /** What the record after the first `n` must name as its parent. */
  function Tip(root: string, rows: seq<Row>, n: nat): Hash
    requires n <= |rows|
  {
    if n == 0 then Model(root) else rows[n - 1].hash
  }

  predicate LinkedAt(root: string, rows: seq<Row>, i: nat)
    requires i < |rows|
  {
    rows[i].prev == Tip(root, rows, i) && rows[i].hash == Of(rows[i].prev, rows[i].record)
  }

  ghost predicate Linked(root: string, rows: seq<Row>) {
    forall i :: 0 <= i < |rows| ==> LinkedAt(root, rows, i)
  }

  ghost predicate NumbersAscend(rows: seq<Row>) {
    forall i, j :: 0 <= i < j < |rows| ==> rows[i].seqno < rows[j].seqno
  }

  /** Linked in sequence order. */
  ghost predicate Chain(root: string, rows: seq<Row>) { Linked(root, rows) && NumbersAscend(rows) }

  function Depth(h: Hash): nat {
    match h
    case Model(_) => 0
    case Of(prev, _) => 1 + Depth(prev)
  }

  lemma {:induction false} TipDepth(root: string, rows: seq<Row>, n: nat)
    requires Linked(root, rows) && n <= |rows|
    ensures Depth(Tip(root, rows, n)) == n
  {
    if n > 0 {
      assert LinkedAt(root, rows, n - 1);
      TipDepth(root, rows, n - 1);
    }
  }

  predicate Claimed(rows: seq<Row>, parent: Hash) {
    exists i :: 0 <= i < |rows| && rows[i].prev == parent
  }

  /** A parent is still free exactly when it is the current tip. */
  lemma FreeIsTip(root: string, rows: seq<Row>, n: nat)
    requires Linked(root, rows) && n <= |rows|
    ensures Claimed(rows, Tip(root, rows, n)) <==> n < |rows|
  {
    if n < |rows| {
      assert LinkedAt(root, rows, n);
    } else if Claimed(rows, Tip(root, rows, n)) {
      var i :| 0 <= i < |rows| && rows[i].prev == Tip(root, rows, n);
      assert LinkedAt(root, rows, i);
      TipDepth(root, rows, i);
      TipDepth(root, rows, n);
    }
  }

  /** The newest hash fixes every record before it, and the model it all started from. */
  lemma {:induction false} HeadDeterminesChain(p: string, a: seq<Row>, q: string, b: seq<Row>)
    requires Linked(p, a) && Linked(q, b)
    requires Tip(p, a, |a|) == Tip(q, b, |b|)
    ensures p == q && |a| == |b|
    ensures forall i :: 0 <= i < |a| ==> SameLink(a[i], b[i])
    decreases |a|
  {
    hide Linked, LinkedAt;
    TipDepth(p, a, |a|);
    TipDepth(q, b, |b|);
    if a != [] {
      var n := |a| - 1;
      LastLinked(p, a);
      LastLinked(q, b);
      PrefixLinked(p, a, n);
      PrefixLinked(q, b, n);
      HeadDeterminesChain(p, a[..n], q, b[..n]);
      forall i | 0 <= i < |a| ensures SameLink(a[i], b[i]) {
        if i < n { assert SameLink(a[..n][i], b[..n][i]); }
      }
    }
  }

  predicate SameLink(r: Row, x: Row) { r.prev == x.prev && r.record == x.record && r.hash == x.hash }

  lemma LastLinked(root: string, rows: seq<Row>)
    requires Linked(root, rows) && rows != []
    ensures var r := rows[|rows| - 1]; r.prev == Tip(root, rows, |rows| - 1) && r.hash == Of(r.prev, r.record)
  {
    assert LinkedAt(root, rows, |rows| - 1);
  }

  lemma PrefixLinked(root: string, rows: seq<Row>, n: nat)
    requires Linked(root, rows) && n <= |rows|
    ensures Linked(root, rows[..n]) && Tip(root, rows[..n], n) == Tip(root, rows, n)
  {
    forall i | 0 <= i < n ensures LinkedAt(root, rows[..n], i) {
      assert LinkedAt(root, rows, i);
    }
  }

  // --------------------------------------------------------------------------
  // Appends
  // --------------------------------------------------------------------------

  /** What one attempt has in hand; `at` counts the rows there were when it read the head. */
  datatype Attempt = Attempt(number: nat, head: Option<Row>, record: string, at: nat)

  datatype Phase =
    | Starting(next: nat)
    | Holding(attempt: Attempt)
    | Numbered(attempt: Attempt, seqno: nat)
    | Done
    | Lost
    | Gone

  /** One append, run by a process that booted `model`; `began` counts the rows there were. */
  datatype Append = Append(model: string, began: nat, phase: Phase)

  datatype Ledger = Ledger(rows: seq<Row>, nextSeq: nat, appends: map<nat, Append>)

  datatype Event =
    | Begin(id: nat, model: string)
    | ReadHead(id: nat, head: Option<Row>, record: string)
    | TakeNumber(id: nat)
    | Insert(id: nat)
    | Stop(id: nat)

  /** `ORDER BY seq DESC LIMIT 1`. */
  ghost predicate IsHead(rows: seq<Row>, head: Option<Row>) {
    match head
    case None => rows == []
    case Some(r) => r in rows && forall x :: x in rows ==> x.seqno <= r.seqno
  }

  function Parent(a: Append, t: Attempt): Hash {
    match t.head
    case None => Model(a.model)
    case Some(r) => r.hash
  }

  ghost predicate Enabled(s: Ledger, e: Event) {
    match e
    case Begin(id, _) => id !in s.appends
    case ReadHead(id, head, _) => id in s.appends && s.appends[id].phase.Starting? && IsHead(s.rows, head)
    case TakeNumber(id) => id in s.appends && s.appends[id].phase.Holding?
    case Insert(id) => id in s.appends && s.appends[id].phase.Numbered?
    case Stop(id) => id in s.appends && !s.appends[id].phase.Done?
  }

  function Put(s: Ledger, id: nat, phase: Phase): Ledger
    requires id in s.appends
  {
    s.(appends := s.appends[id := s.appends[id].(phase := phase)])
  }

  function NewRow(a: Append, id: nat): Row
    requires a.phase.Numbered?
  {
    var t := a.phase.attempt;
    var prev := Parent(a, t);
    Row(a.phase.seqno, prev, Of(prev, t.record), t.record, id)
  }

  function AfterInsert(s: Ledger, id: nat): Ledger
    requires id in s.appends && s.appends[id].phase.Numbered?
  {
    var a := s.appends[id];
    if !Claimed(s.rows, Parent(a, a.phase.attempt)) then Put(s, id, Done).(rows := s.rows + [NewRow(a, id)])
    else if a.phase.attempt.number >= CAS_ATTEMPTS then Put(s, id, Lost)
    else Put(s, id, Starting(a.phase.attempt.number + 1))
  }

  ghost function Next(s: Ledger, e: Event): Ledger
    requires Enabled(s, e)
  {
    match e
    case Begin(id, model) => s.(appends := s.appends[id := Append(model, |s.rows|, Starting(1))])
    case ReadHead(id, head, record) =>
      Put(s, id, Holding(Attempt(s.appends[id].phase.next, head, record, |s.rows|)))
    case TakeNumber(id) => Put(s, id, Numbered(s.appends[id].phase.attempt, s.nextSeq)).(nextSeq := s.nextSeq + 1)
    case Insert(id) => AfterInsert(s, id)
    case Stop(id) => Put(s, id, Gone)
  }

  /** Whoever starts on an empty table has booted `root`. */
  predicate Anchored(root: string, s: Ledger, e: Event) { e.Begin? && s.rows == [] ==> e.model == root }

  ghost predicate IsTrace(run: seq<Ledger>, events: seq<Event>) {
    && |run| == |events| + 1
    && forall i :: 0 <= i < |events| ==> Enabled(run[i], events[i]) && run[i + 1] == Next(run[i], events[i])
  }

  /** A run from a linear table with no append under way. */
  ghost predicate IsRun(root: string, run: seq<Ledger>, events: seq<Event>) {
    && IsTrace(run, events)
    && Chain(root, run[0].rows) && run[0].appends == map[]
    && (forall i :: 0 <= i < |run[0].rows| ==> run[0].rows[i].seqno < run[0].nextSeq)
    && forall i :: 0 <= i < |events| ==> Anchored(root, run[i], events[i])
  }

  // --------------------------------------------------------------------------
  // The invariant
  // --------------------------------------------------------------------------

  ghost predicate AttemptOk(root: string, s: Ledger, a: Append, t: Attempt) {
    && 1 <= t.number <= CAS_ATTEMPTS
    && a.began + t.number <= t.at + 1
    && t.at <= |s.rows|
    && Parent(a, t) == Tip(root, s.rows, t.at)
    && (t.head.Some? <==> t.at > 0)
    && (t.head.Some? ==> t.head.value == s.rows[t.at - 1])
  }

  ghost predicate AppendOk(root: string, s: Ledger, a: Append) {
    && a.began <= |s.rows|
    && match a.phase
       case Starting(n) => 1 <= n <= CAS_ATTEMPTS && a.began + n <= |s.rows| + 1
       case Holding(t) => AttemptOk(root, s, a, t)
       case Numbered(t, seqno) =>
         AttemptOk(root, s, a, t) && seqno < s.nextSeq && (t.head.Some? ==> t.head.value.seqno < seqno)
       case Lost => a.began + CAS_ATTEMPTS <= |s.rows|
       case _ => true
  }

  ghost predicate Wrote(rows: seq<Row>, id: nat) { exists i :: 0 <= i < |rows| && rows[i].author == id }

  /** Each row comes from one finished append; rows that were there before carry other authors. */
  ghost predicate AuthorsOk(base: nat, s: Ledger) {
    && base <= |s.rows|
    && (forall i :: base <= i < |s.rows| ==> s.rows[i].author in s.appends)
    && (forall i, j :: base <= i < j < |s.rows| ==> s.rows[i].author != s.rows[j].author)
    && (forall id :: id in s.appends ==> (Wrote(s.rows[base..], id) <==> s.appends[id].phase.Done?))
  }

  ghost predicate Inv(root: string, base: nat, s: Ledger) {
    && Chain(root, s.rows)
    && (forall i :: 0 <= i < |s.rows| ==> s.rows[i].seqno < s.nextSeq)
    && (s.rows == [] ==> forall id :: id in s.appends ==> s.appends[id].model == root)
    && (forall id :: id in s.appends ==> AppendOk(root, s, s.appends[id]))
    && AuthorsOk(base, s)
  }

  lemma HeadIsLast(root: string, rows: seq<Row>, head: Option<Row>)
    requires Chain(root, rows) && IsHead(rows, head)
    ensures rows != [] ==> head == Some(rows[|rows| - 1])
  {
    hide Linked;
    if rows != [] {
      assert rows[|rows| - 1] in rows;
      var i :| 0 <= i < |rows| && rows[i] == head.value;
    }
  }

  /** The insert goes through exactly when nobody moved the head since it was read. */
  lemma InsertIsCas(root: string, base: nat, s: Ledger, id: nat)
    requires Inv(root, base, s) && id in s.appends && s.appends[id].phase.Numbered?
    ensures var a := s.appends[id]; var s' := AfterInsert(s, id);
            if a.phase.attempt.at == |s.rows| then
              && s'.rows == s.rows + [NewRow(a, id)]
              && NewRow(a, id).prev == Tip(root, s.rows, |s.rows|)
              && Chain(root, s'.rows)
              && s'.appends[id].phase == Done
            else
              && s'.rows == s.rows
              && s'.appends[id].phase == if a.phase.attempt.number < 3 then Starting(a.phase.attempt.number + 1) else Lost
  {
    hide Linked;
    var a := s.appends[id];
    assert AppendOk(root, s, a);
    FreeIsTip(root, s.rows, a.phase.attempt.at);
    if a.phase.attempt.at == |s.rows| { LinkOne(root, s.rows, NewRow(a, id)); }
  }

  lemma LinkOne(root: string, rows: seq<Row>, row: Row)
    requires Chain(root, rows) && row.prev == Tip(root, rows, |rows|) && row.hash == Of(row.prev, row.record)
    requires rows != [] ==> rows[|rows| - 1].seqno < row.seqno
    ensures Chain(root, rows + [row])
  {
    var more := rows + [row];
    forall i | 0 <= i <= |rows| ensures LinkedAt(root, more, i) {
      if i < |rows| { assert LinkedAt(root, rows, i); }
    }
    assert NumbersAscend(more) by {
      hide Linked, LinkedAt;
      if rows != [] { assert forall i :: 0 <= i < |rows| ==> rows[i].seqno <= rows[|rows| - 1].seqno; }
    }
  }

  lemma AppendSurvives(root: string, s: Ledger, s': Ledger, a: Append)
    requires AppendOk(root, s, a) && s.rows <= s'.rows && s.nextSeq <= s'.nextSeq
    ensures AppendOk(root, s', a)
  {
    assert forall i :: 0 <= i <= |s.rows| ==> Tip(root, s'.rows, i) == Tip(root, s.rows, i);
  }

  lemma InsertKeepsInv(root: string, base: nat, s: Ledger, id: nat)
    requires Inv(root, base, s) && id in s.appends && s.appends[id].phase.Numbered?
    ensures Inv(root, base, AfterInsert(s, id))
  {
    hide Chain, AppendOk, Claimed, AuthorsOk;
    var s', a := AfterInsert(s, id), s.appends[id];
    InsertIsCas(root, base, s, id);
    forall k | k in s'.appends ensures AppendOk(root, s', s'.appends[k]) {
      if k != id { AppendSurvives(root, s, s', s.appends[k]); }
      else { InsertedOk(root, base, s, id); }
    }
    assert AppendOk(root, s, a);
    SeqInRange(root, s, a);
    InsertKeepsAuthors(root, base, s, id);
  }

  lemma InsertKeepsAuthors(root: string, base: nat, s: Ledger, id: nat)
    requires Inv(root, base, s) && id in s.appends && s.appends[id].phase.Numbered?
    ensures AuthorsOk(base, AfterInsert(s, id))
  {
    hide Chain, AppendOk, Claimed, Wrote;
    InsertIsCas(root, base, s, id);
    var a, s' := s.appends[id], AfterInsert(s, id);
    if s'.rows != s.rows {
      forall k ensures Wrote(s'.rows[base..], k) <==> Wrote(s.rows[base..], k) || k == id {
        WroteOne(s.rows, base, NewRow(a, id), k);
      }
      assert !Wrote(s.rows[base..], id);
      forall i | base <= i < |s.rows| ensures s.rows[i].author != id { NotAuthor(s.rows, base, id, i); }
    }
  }

  lemma NotAuthor(rows: seq<Row>, base: nat, id: nat, i: nat)
    requires base <= i < |rows| && !Wrote(rows[base..], id)
    ensures rows[i].author != id
  {
    assert rows[base..][i - base] == rows[i];
  }

  lemma SeqInRange(root: string, s: Ledger, a: Append)
    requires a.phase.Numbered? && AppendOk(root, s, a)
    ensures a.phase.seqno < s.nextSeq
  {}

  lemma InsertedOk(root: string, base: nat, s: Ledger, id: nat)
    requires Inv(root, base, s) && id in s.appends && s.appends[id].phase.Numbered?
    ensures AppendOk(root, AfterInsert(s, id), AfterInsert(s, id).appends[id])
  {
    hide Chain, Claimed;
    InsertIsCas(root, base, s, id);
    assert AppendOk(root, s, s.appends[id]);
  }

  lemma WroteOne(rows: seq<Row>, base: nat, row: Row, k: nat)
    requires base <= |rows|
    ensures Wrote((rows + [row])[base..], k) <==> Wrote(rows[base..], k) || row.author == k
  {
    var a, b := rows[base..], (rows + [row])[base..];
    assert b == a + [row];
    if row.author == k { assert b[|a|].author == k; }
    if Wrote(a, k) { var i :| 0 <= i < |a| && a[i].author == k; assert b[i].author == k; }
  }

  lemma StepKeepsInv(root: string, base: nat, s: Ledger, e: Event)
    requires Inv(root, base, s) && Enabled(s, e) && Anchored(root, s, e)
    ensures Inv(root, base, Next(s, e))
  {
    hide Linked, NumbersAscend, Wrote, Claimed, IsHead;
    var s' := Next(s, e);
    match e
    case Insert(id) => InsertKeepsInv(root, base, s, id);
    case _ =>
      forall k | k in s'.appends ensures AppendOk(root, s', s'.appends[k]) {
        if k != e.id {
          assert AppendOk(root, s, s.appends[k]);
          AppendSurvives(root, s, s', s.appends[k]);
        } else {
          OwnStep(root, base, s, e);
        }
      }
      if e.Begin? { NoneWrote(base, s, e.id); }
  }

  lemma NoneWrote(base: nat, s: Ledger, id: nat)
    requires AuthorsOk(base, s) && id !in s.appends
    ensures !Wrote(s.rows[base..], id)
  {
    assert forall i :: 0 <= i < |s.rows[base..]| ==> s.rows[base..][i] == s.rows[base + i];
  }

  lemma OwnStep(root: string, base: nat, s: Ledger, e: Event)
    requires Inv(root, base, s) && Enabled(s, e) && !e.Insert?
    ensures AppendOk(root, Next(s, e), Next(s, e).appends[e.id])
  {
    hide Wrote, AuthorsOk;
    if !e.Begin? { assert AppendOk(root, s, s.appends[e.id]); }
    if e.ReadHead? { HeadIsLast(root, s.rows, e.head); }
  }

  // --------------------------------------------------------------------------
  // Whole runs
  // --------------------------------------------------------------------------

  lemma {:induction false} RunKeepsInv(root: string, run: seq<Ledger>, events: seq<Event>, n: nat)
    requires IsRun(root, run, events) && n < |run|
    ensures Inv(root, |run[0].rows|, run[n])
  {
    hide Chain, Enabled, Next, Anchored;
    if n == 0 {
      assert run[0].rows[|run[0].rows|..] == [];
    } else {
      RunKeepsInv(root, run, events, n - 1);
      assert Enabled(run[n - 1], events[n - 1]) && Anchored(root, run[n - 1], events[n - 1]);
      StepKeepsInv(root, |run[0].rows|, run[n - 1], events[n - 1]);
    }
  }

  /** At every moment of every run the table is one chain from the model, growing a record at a time. */
  lemma RunIsLinear(root: string, run: seq<Ledger>, events: seq<Event>, n: nat)
    requires IsRun(root, run, events) && n < |events|
    ensures Chain(root, run[n].rows)
    ensures run[n + 1].rows == run[n].rows ||
            exists row :: run[n + 1].rows == run[n].rows + [row] && row.prev == Tip(root, run[n].rows, |run[n].rows|)
  {
    hide Chain, Linked, AppendOk, AuthorsOk, Claimed;
    RunKeepsInv(root, run, events, n);
    assert Enabled(run[n], events[n]);
    if events[n].Insert? { InsertIsCas(root, |run[0].rows|, run[n], events[n].id); }
  }

  /** The records the run has added. */
  function Since(base: nat, rows: seq<Row>): seq<Row> { if base <= |rows| then rows[base..] else [] }

  ghost predicate WroteOnce(rows: seq<Row>, id: nat) {
    exists i :: 0 <= i < |rows| && rows[i].author == id && forall k :: 0 <= k < |rows| && k != i ==> rows[k].author != id
  }

  /**
   A finished append wrote exactly one record; any other wrote none, and one that lost
   the race gave up only after three records of other writers landed while it tried.
   */
  lemma RunOutcomes(root: string, run: seq<Ledger>, events: seq<Event>, n: nat, id: nat)
    requires IsRun(root, run, events) && n < |run| && id in run[n].appends
    ensures var a := run[n].appends[id];
            var written := Since(|run[0].rows|, run[n].rows);
            && (a.phase.Done? ==> WroteOnce(written, id))
            && (!a.phase.Done? ==> !Wrote(written, id))
            && (a.phase.Lost? ==> a.began + 3 <= |run[n].rows|)
  {
    hide IsRun, Chain, AuthorsOk, WroteOnce, Wrote, AttemptOk;
    RunKeepsInv(root, run, events, n);
    var s, base := run[n], |run[0].rows|;
    assert AppendOk(root, s, s.appends[id]);
    AuthorsAgree(base, s, id);
    if s.appends[id].phase.Done? { OnlyOnce(base, s, id); }
  }

  lemma AuthorsAgree(base: nat, s: Ledger, id: nat)
    requires AuthorsOk(base, s) && id in s.appends
    ensures base <= |s.rows| && Since(base, s.rows) == s.rows[base..]
    ensures Wrote(s.rows[base..], id) <==> s.appends[id].phase.Done?
  {
    hide Wrote;
  }

  lemma DifferentAuthors(base: nat, s: Ledger, i: nat, j: nat)
    requires base <= |s.rows| && AuthorsOk(base, s) && i < |s.rows[base..]| && j < |s.rows[base..]| && i != j
    ensures s.rows[base..][i].author != s.rows[base..][j].author
  {
    hide Wrote;
    var a, b := if i < j then base + i else base + j, if i < j then base + j else base + i;
    assert s.rows[a].author != s.rows[b].author;
  }

  lemma OnlyOnce(base: nat, s: Ledger, id: nat)
    requires base <= |s.rows| && AuthorsOk(base, s) && Wrote(s.rows[base..], id)
    ensures WroteOnce(s.rows[base..], id)
  {
    hide AuthorsOk;
    var written := s.rows[base..];
    var i :| 0 <= i < |written| && written[i].author == id;
    forall k | 0 <= k < |written| && k != i ensures written[k].author != id { DifferentAuthors(base, s, k, i); }
  }

  function Last(run: seq<Ledger>): Ledger
    requires run != []
  {
    run[|run| - 1]
  }

  lemma Extend(run: seq<Ledger>, events: seq<Event>, e: Event) returns (run': seq<Ledger>, events': seq<Event>)
    requires IsTrace(run, events) && Enabled(Last(run), e)
    ensures run' != [] && IsTrace(run', events') && run'[0] == run[0] && events' == events + [e]
    ensures Last(run') == Next(Last(run), e)
  {
    hide Enabled, Next;
    run', events' := run + [Next(Last(run), e)], events + [e];
  }

  lemma NoSteps(s: Ledger)
    ensures IsTrace([s], [])
  {}

  predicate Begins(events: seq<Event>, models: set<string>) {
    forall i :: 0 <= i < |events| && events[i].Begin? ==> events[i].model in models
  }

  lemma TwoStarts(p: string, q: string) returns (run: seq<Ledger>, events: seq<Event>)
    requires p != q
    ensures run != [] && IsTrace(run, events) && run[0] == Ledger([], 1, map[]) && Begins(events, {p, q})
    ensures var s := Last(run); var t := Attempt(1, None, "", 0);
            && s.rows == [] && s.appends == map[0 := Append(p, 0, Holding(t)), 1 := Append(q, 0, Holding(t))]
  {
    hide IsTrace;
    run, events := [Ledger([], 1, map[])], [];
    NoSteps(run[0]);
    run, events := Extend(run, events, Begin(0, p));
    run, events := Extend(run, events, Begin(1, q));
    run, events := Extend(run, events, ReadHead(0, None, ""));
    run, events := Extend(run, events, ReadHead(1, None, ""));
  }

  /** Two models booted against an empty table can leave two roots, so the anchoring is needed. */
  lemma TwoRoots(p: string, q: string) returns (run: seq<Ledger>, events: seq<Event>)
    requires p != q
    ensures run != [] && IsTrace(run, events) && run[0] == Ledger([], 1, map[]) && Begins(events, {p, q})
    ensures forall root :: !Linked(root, Last(run).rows)
  {
    hide Linked, IsTrace;
    run, events := TwoStarts(p, q);
    run, events := Extend(run, events, TakeNumber(0));
    run, events := Extend(run, events, TakeNumber(1));
    run, events := Extend(run, events, Insert(0));
    assert !Claimed(Last(run).rows, Model(q));
    run, events := Extend(run, events, Insert(1));
    forall root ensures !Linked(root, Last(run).rows) { ForkedRoot(root, Last(run).rows); }
  }

  lemma ForkedRoot(root: string, rows: seq<Row>)
    requires |rows| == 2 && rows[1].prev.Model? && rows[0].hash.Of?
    ensures !Linked(root, rows)
  {
    assert !LinkedAt(root, rows, 1);
  }

  // --------------------------------------------------------------------------
  // Signatures
  // --------------------------------------------------------------------------

  datatype Stored = Stored(hash: Hash, signature: Option<string>)

  type Verifier = (Hash, string) -> bool

  predicate Valid(verify: Verifier, r: Stored) { r.signature.Some? && verify(r.hash, r.signature.value) }

  /** From the first signed record onward, every record carries a signature that verifies. */
  ghost predicate SignedFromActivation(verify: Verifier, records: seq<Stored>) {
    forall i, j :: 0 <= i <= j < |records| && records[i].signature.Some? ==> Valid(verify, records[j])
  }

  method VerifySignatures(verify: Verifier, records: seq<Stored>) returns (ok: bool)
    ensures ok <==> SignedFromActivation(verify, records)
  {
    var signingSeen := false;
    for n := 0 to |records|
      invariant SignedFromActivation(verify, records[..n])
      invariant signingSeen <==> exists i :: 0 <= i < n && records[i].signature.Some?
    {
      var record := records[n];
      if record.signature.None? {
        if signingSeen {
          assert !Valid(verify, records[n]);
          return false;
        }
        continue;
      }
      signingSeen := true;
      if !verify(record.hash, record.signature.value) {
        assert !Valid(verify, records[n]);
        return false;
      }
    }
    assert records[..|records|] == records;
    return true;
  }

  /** A later append keeps the verdict exactly when it signs validly, or nobody has signed yet. */
  lemma AppendKeepsSigned(verify: Verifier, records: seq<Stored>, r: Stored)
    requires SignedFromActivation(verify, records)
    ensures SignedFromActivation(verify, records + [r]) <==>
            Valid(verify, r) || (r.signature.None? && forall i :: 0 <= i < |records| ==> records[i].signature.None?)
  {
    var more := records + [r];
    assert more[|records|] == r;
    assert forall i :: 0 <= i < |records| ==> more[i] == records[i];
  }
}
