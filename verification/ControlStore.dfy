/**
 The control plane as the object it is: tables updated in place, statement by
 statement, with the list of committed states beside them. A replica serves any of
 those states. Every method is tied to the functions of ControlTables, Admission
 and ControlRuns, whose theorems then speak about it.
 */
module ControlStore {
  import opened Wrappers
  import opened ControlTables
  import opened Admission
  import opened ControlRuns

  datatype Outcome<B> =
    | Stored(row: Row<B>)        // committed, and this is the row read back
    | Kept(row: Row<B>)          // nothing to change
    | Nothing                    // no live row
    | Refused                    // the mark was above the token when it was read
    | Aborted                    // the mark rose above the token before the transaction

  ghost predicate CommitsAt<B>(log: seq<Tables<B>>, i: nat, w: Write<B>) {
    i + 1 < |log| && Txn(log[i], w) == Some(log[i + 1])
  }

  ghost predicate AbortsAt<B>(log: seq<Tables<B>>, i: nat, w: Write<B>) {
    i < |log| && Txn(log[i], w).None?
  }

  /** The commit of state `i + 1` added one outbox entry, and this is it. */
  ghost predicate Entered<B>(log: seq<Tables<B>>, i: nat, key: Key, at: string, op: Op) {
    && i + 1 < |log|
    && var r := MaxRevision(log[i].rows) + 1;
       log[i + 1].outbox == log[i].outbox[r := OutboxRow(key, op, at)]
  }

  ghost predicate EnteredSince<B>(log: seq<Tables<B>>, from: nat, key: Key, at: string, op: Op) {
    exists i :: from <= i && Entered(log, i, key, at, op)
  }

  lemma CommitEnters<B>(log: seq<Tables<B>>, i: nat, w: Write<B>)
    requires CommitsAt(log, i, w) && Consistent(log[i]) && (w.AdmitRow? || w.key in log[i].rows)
    ensures Entered(log, i, w.key, w.now, OutboxOp(w))
  {
    hide MaxRevision, WriteRow, Consistent, Txn;
    GaplessOf(log[i]);
    TxnAbortsIffFenced(log[i], w);
    TxnLands(log[i], w);
  }

  /** How the transaction of a write, submitted once state `from` was committed, came out. */
  ghost predicate Finished<B>(w: Write<B>, from: nat, log: seq<Tables<B>>, rows: map<Key, Row<B>>, o: Outcome<B>) {
    match o
    case Aborted => exists i :: from <= i && AbortsAt(log, i, w)
    case Stored(row) => (exists i :: from <= i && CommitsAt(log, i, w)) && w.key in rows && rows[w.key] == row
    case _ => false
  }

  /** What the caller of an operation that read its row in `before` may conclude. */
  ghost predicate Answers<B>(req: Request<B>, before: Tables<B>, from: nat, log: seq<Tables<B>>,
                             rows: map<Key, Row<B>>, o: Outcome<B>)
  {
    match Decide(req, ReadRow(before, req.key))
    case Superseded => o == Refused && |log| == from + 1
    case Absent => o == Nothing && |log| == from + 1
    case Unchanged(row) => o == Kept(row) && |log| == from + 1
    case Proceed(w) => Finished(w, from, log, rows, o)
  }

  predicate Succeeded<B>(o: Outcome<B>) { o != Refused && o != Aborted }

  /** With nobody else writing, an operation is its read and its transaction. */
  ghost predicate Uninterrupted<B>(req: Request<B>, before: Tables<B>, after: Tables<B>, o: Outcome<B>) {
    match Atomically(before, req)
    case None => !Succeeded(o) && after == before
    case Some(t) => Succeeded(o) && after == t
  }

  /** What a pass has reconciled once `n` items of its batch are done. */
  ghost function Items<B>(name: string, batch: seq<Change<B>>, n: nat): set<(string, Key, nat)>
    requires n <= |batch|
  {
    set i | 0 <= i < n :: (name, batch[i].key, batch[i].row.revision)
  }

  function Least(a: nat, b: nat): nat { if a < b then a else b }

  /** How many items of a batch are reconciled. */
  function Budget(size: nat, clock: nat, failAt: Option<nat>): nat {
    Least(Least(size, clock), if failAt.Some? then failAt.value else size)
  }

  /** How a turn of a pass ends: nothing to do, a throw, no time for even one, a raised watermark. */
  datatype RoundEnd = Empty | Failing | Late | Advancing

  function Ending<B>(p: Pass<B>, clock: nat, failAt: Option<nat>): RoundEnd {
    if p.batch == [] then Empty
    else if failAt == Some(p.done) && p.done < |p.batch| && p.done < clock then Failing
    else if p.done == 0 then Late
    else Advancing
  }

  /** What a pass was asked for, and what it started from. */
  datatype Task<B> = Task(
    name: string,
    first: nat,
    clock: nat,
    failAt: Option<nat>,
    before: Tables<B>,
    alone: bool,
    ample: bool)

  /** The revision of the last item reconciled. */
  function Reached<B>(p: Pass<B>): nat
    requires 0 < p.done <= |p.batch|
  {
    p.batch[p.done - 1].row.revision
  }

  /** The rounds of a pass, each from the mark the one before reached, each with something done. */
  ghost predicate Chained<B>(rounds: seq<Pass<B>>, name: string, first: nat, last: nat) {
    if rounds == [] then first == last
    else
      var n := |rounds| - 1;
      && rounds[n].name == name && 0 < rounds[n].done <= |rounds[n].batch|
      && last == Reached(rounds[n])
      && Chained(rounds[..n], name, first, rounds[n].mark)
  }

  ghost function Done<B>(rounds: seq<Pass<B>>): nat {
    if rounds == [] then 0 else Done(rounds[..|rounds| - 1]) + rounds[|rounds| - 1].done
  }

  /** Clock readings: one before each scan, one before each reconcile. */
  ghost function Spent<B>(rounds: seq<Pass<B>>): nat { |rounds| + Done(rounds) }

  /** Watched rows above a mark. */
  ghost function Unread<B>(rows: map<Key, Row<B>>, since: nat, kinds: seq<string>): set<Key> {
    set k | k in rows && rows[k].revision > since && Watches(kinds, k.kind)
  }

  /** Clock enough to scan and reconcile every unread row one by one, and to find nothing more. */
  ghost predicate Ample<B>(clock: nat, rows: map<Key, Row<B>>, since: nat, kinds: seq<string>) {
    clock > 2 * |Unread(rows, since, kinds)|
  }

  lemma NeverSpent<B>(rows: map<Key, Row<B>>, since: nat, kinds: seq<string>)
    ensures !Ample(0, rows, since, kinds)
  {}

  lemma UnreadFalls<B>(rows: map<Key, Row<B>>, since: nat, later: nat, kinds: seq<string>)
    requires since <= later && Unread(rows, since, kinds) == {}
    ensures Unread(rows, later, kinds) == {}
  {
    assert Unread(rows, later, kinds) <= Unread(rows, since, kinds);
  }

  ghost function Scanned<B>(batch: seq<Change<B>>, n: nat): (r: set<Key>)
    requires n <= |batch|
    ensures forall k :: k in r <==> exists i :: 0 <= i < n && batch[i].key == k
  {
    if n == 0 then {} else Scanned(batch, n - 1) + {batch[n - 1].key}
  }

  lemma {:induction false} ScannedCount<B>(batch: seq<Change<B>>, n: nat)
    requires n <= |batch| && forall i, j :: 0 <= i < j < |batch| ==> batch[i].key != batch[j].key
    ensures |Scanned(batch, n)| == n
  {
    if n > 0 { ScannedCount(batch, n - 1); }
  }

  /** Reconciling the first `n` items leaves at least `n` fewer rows unread. */
  lemma UnreadShrinks<B>(t: Tables<B>, p: Pass<B>, kinds: seq<string>)
    requires Ordered(t, p.mark, kinds, p.batch) && 0 < p.done <= |p.batch|
    ensures |Unread(t.rows, Reached(p), kinds)| + p.done <= |Unread(t.rows, p.mark, kinds)|
  {
    var before, after, seen := Unread(t.rows, p.mark, kinds), Unread(t.rows, Reached(p), kinds), Scanned(p.batch, p.done);
    ScannedCount(p.batch, p.done);
    forall k | k in seen ensures k in before && k !in after {
      var i :| 0 <= i < p.done && p.batch[i].key == k;
      assert Selected(t, p.mark, kinds, p.batch[i].key);
    }
    assert Selected(t, p.mark, kinds, p.batch[p.done - 1].key);
    assert after <= before && after !! seen && seen <= before;
    Sizes(after, seen, before);
  }

  lemma Sizes<T>(a: set<T>, b: set<T>, c: set<T>)
    requires a <= c && b <= c && a !! b
    ensures |a| + |b| <= |c|
  {
    assert |a + b| == |a| + |b|;
    Within(a + b, c);
  }

  lemma Within<T>(a: set<T>, c: set<T>)
    requires a <= c
    ensures |a| <= |c|
  {
    assert c == a + (c - a);
  }

  lemma BatchWithin<B>(t: Tables<B>, since: nat, kinds: seq<string>, batch: seq<Change<B>>)
    requires Ordered(t, since, kinds, batch)
    ensures |batch| <= |Unread(t.rows, since, kinds)|
  {
    ScannedCount(batch, |batch|);
    forall k | k in Scanned(batch, |batch|) ensures k in Unread(t.rows, since, kinds) {
      var i :| 0 <= i < |batch| && batch[i].key == k;
      assert Selected(t, since, kinds, batch[i].key);
    }
    Within(Scanned(batch, |batch|), Unread(t.rows, since, kinds));
  }

  lemma NothingScanned<B>(t: Tables<B>, since: nat, kinds: seq<string>, limit: nat)
    requires IsScan(t, since, kinds, limit, []) && limit > 0
    ensures Unread(t.rows, since, kinds) == {}
  {
    if k :| k in Unread(t.rows, since, kinds) { assert Selected(t, since, kinds, k); }
  }

  /** With time enough a round either finds nothing or goes through its batch, and time stays enough. */
  lemma AmpleRound<B>(t: Tables<B>, q: Pass<B>, kinds: seq<string>, limit: nat, left: nat)
    requires IsScan(t, q.mark, kinds, limit, q.batch) && limit > 0
    requires left > 0 && Ample(left, t.rows, q.mark, kinds) && q.done == Budget(|q.batch|, left - 1, None)
    ensures var how := Ending(q, left - 1, None);
            && (how.Empty? || how.Advancing?)
            && (how.Empty? ==> Unread(t.rows, q.mark, kinds) == {})
            && (how.Advancing? ==> 0 < q.done <= |q.batch| && Ample(left - 1 - q.done, t.rows, Reached(q), kinds))
  {
    hide Unread;
    if q.batch == [] {
      NothingScanned(t, q.mark, kinds, limit);
    } else {
      BatchWithin(t, q.mark, kinds, q.batch);
      UnreadShrinks(t, q, kinds);
    }
  }

  lemma ScanAscends<B>(t: Tables<B>, q: Pass<B>, kinds: seq<string>, limit: nat)
    requires IsScan(t, q.mark, kinds, limit, q.batch) && 0 < q.done <= |q.batch|
    ensures q.mark < Reached(q)
  {
    assert Selected(t, q.mark, kinds, q.batch[q.done - 1].key);
  }

  lemma HowItEnds<B>(q: Pass<B>, clock: nat, failAt: Option<nat>)
    requires q.done == Budget(|q.batch|, clock, failAt)
    ensures var how := Ending(q, clock, failAt);
            && (how.Empty? ==> q.batch == [])
            && (how.Late? ==> clock == 0)
            && (how.Failing? ==> failAt == Some(q.done) && q.done < |q.batch|)
            && (how.Advancing? ==> 0 < q.done <= |q.batch|)
            && (failAt.Some? ==> q.done <= failAt.value)
  {}

  class Store<B(==,0,!new)> {
    const config: Config
    /** Whether nobody else writes, and the replica is up to date. */
    const alone: bool
    var rows: map<Key, Row<B>>
    var outbox: map<nat, OutboxRow>
    var watermarks: map<string, nat>
    var log: seq<Tables<B>>
    ghost var reconciled: set<(string, Key, nat)>
    /** The writes submitted here, as opposed to everybody else's. */
    ghost var submitted: seq<Write<B>>

    ghost function Now(): Tables<B>
      reads this
    {
      Tables(rows, outbox, watermarks)
    }

    /** This store as a state of the protocol, with the other processes left out. */
    ghost function Sys(): System<B>
      reads this
    {
      System(Now(), log, map[], map[], map[], reconciled)
    }

    ghost predicate Valid()
      reads this
    {
      LogOk(Sys()) && forall name :: Covered(config, Sys(), name, Watermark(Now(), name))
    }

    constructor (config: Config, alone: bool)
      ensures Valid() && Sys() == Init() && this.config == config && this.alone == alone
    {
      this.config, this.alone := config, alone;
      rows, outbox, watermarks := map[], map[], map[];
      log := [Tables(map[], map[], map[])];
      reconciled, submitted := {}, [];
      new;
      assert Now() == EmptyTables();
      assert Evolves(Now(), Now()) && Consistent(Now());
    }

    // ------------------------------------------------------------------------
    // Statements
    // ------------------------------------------------------------------------

    /** `SELECT COALESCE(MAX(revision), 0) + 1`. */
    method NextRevision() returns (next: nat)
      ensures next == MaxRevision(rows) + 1
    {
      var left := rows.Keys;
      var max: nat := 0;
      ghost var top: Option<Key> := None;
      while left != {}
        invariant left <= rows.Keys
        invariant forall k :: k in rows && k !in left ==> rows[k].revision <= max
        invariant if top.None? then max == 0 else top.value in rows && rows[top.value].revision == max
      {
        var k :| k in left;
        if rows[k].revision > max { max, top := rows[k].revision, Some(k); }
        left := left - {k};
      }
      if rows != map[] {
        var best := MaxAttained(rows);
        assert rows[best].revision <= max;
      }
      next := max + 1;
    }

    method UpdateRow(w: Write<B>)
      modifies this`rows
      ensures rows == WriteRow(old(rows), w)
    {
      var next := NextRevision();
      if w.key !in rows {
        if w.AdmitRow? { rows := rows[w.key := Row(next, w.fence, w.body, None, None, w.now, w.now)]; }
      } else if rows[w.key].fence <= w.fence {
        var row := rows[w.key].(revision := next, fence := w.fence, updatedAt := w.now);
        match w {
          case AdmitRow(_, _, _, body, _) => row := row.(spec := body, deletedAt := None);
          case RetractRow(_, _, now) => row := row.(deletedAt := Some(now));
          case StatusRow(_, _, _, body) => row := row.(status := Some(body));
        }
        rows := rows[w.key := row];
      }
    }

    method CopyToOutbox(key: Key, op: Op, at: string) returns (ok: bool)
      modifies this`outbox
      ensures ok <==> InsertOutbox(old(Now()), key, op, at).Some?
      ensures Now() == if ok then InsertOutbox(old(Now()), key, op, at).value else old(Now())
    {
      if key !in rows { return true; }
      var revision := rows[key].revision;
      if revision in outbox { return false; }
      outbox := outbox[revision := OutboxRow(key, op, at)];
      return true;
    }

    /** Both statements as one operation, rolled back whole on a primary-key violation. */
    method Transact(w: Write<B>) returns (ok: bool)
      requires Valid()
      modifies this`rows, this`outbox, this`log
      ensures Valid()
      ensures match Txn(old(Now()), w)
              case None => !ok && Now() == old(Now()) && log == old(log)
              case Some(t) => ok && Now() == t && log == old(log) + [t]
    {
      hide MaxRevision, WriteRow, Consistent, Evolves, Covered, LogOk, Watermark, OutboxOp;
      ghost var s := Sys();
      var before := rows;
      UpdateRow(w);
      ok := CopyToOutbox(w.key, OutboxOp(w), w.now);
      if !ok {
        rows := before;
        return;
      }
      log := log + [Tables(rows, outbox, watermarks)];
      TransactKeeps(s, w, Sys());
    }

    lemma TransactKeeps(s: System<B>, w: Write<B>, s': System<B>)
      requires LogOk(s) && forall name :: Covered(config, s, name, Watermark(s.tables, name))
      requires Txn(s.tables, w).Some? && s' == Committed(s, Txn(s.tables, w).value)
      ensures LogOk(s') && forall name :: Covered(config, s', name, Watermark(s'.tables, name))
    {
      hide MaxRevision, Evolves, Consistent, Covered, Txn;
      LogKept(s, s);
      TxnKeeps(s.tables, w);
      TxnKeepsWatermarks(s.tables, w);
      LogGrows(s, s'.tables);
      forall name ensures Covered(config, s', name, Watermark(s'.tables, name)) {
        CoverageSurvives(config, s, s', name, Watermark(s.tables, name));
      }
    }
 
    /**
     Raising a watermark is allowed only to a revision everything up to which has been
     reconciled; the passes below earn that.
     */
    method WriteWatermark(name: string, revision: nat)
      requires Valid() && Covered(config, Sys(), name, revision)
      modifies this`watermarks, this`log
      ensures Valid()
      ensures Now() == RaiseWatermark(old(Now()), name, revision) && log == old(log) + [Now()]
    {
      ghost var s := Sys();
      if name !in watermarks || watermarks[name] < revision {
        watermarks := watermarks[name := revision];
      }
      log := log + [Tables(rows, outbox, watermarks)];
      WatermarkKeeps(s, name, revision, Sys());
    }

    lemma WatermarkKeeps(s: System<B>, name: string, revision: nat, s': System<B>)
      requires LogOk(s) && forall n :: Covered(config, s, n, Watermark(s.tables, n))
      requires Covered(config, s, name, revision) && s' == Committed(s, RaiseWatermark(s.tables, name, revision))
      ensures LogOk(s') && forall n :: Covered(config, s', n, Watermark(s'.tables, n))
    {
      hide MaxRevision, Evolves, Consistent, Covered;
      LogKept(s, s);
      RaiseKeeps(s.tables, name, revision);
      LogGrows(s, s'.tables);
      forall n ensures Covered(config, s', n, Watermark(s'.tables, n)) {
        CoverageSurvives(config, s, s', n, Watermark(s'.tables, n));
      }
    }

    // ------------------------------------------------------------------------
    // The change feed, from a replica
    // ------------------------------------------------------------------------

    /** The earliest selected row of a committed state, if there is one. */
    method First(t: Tables<B>, since: nat, kinds: seq<string>, skip: set<Key>) returns (k: Option<Key>)
      ensures k.None? ==> forall l :: Selected(t, since, kinds, l) ==> l in skip
      ensures k.Some? ==> Selected(t, since, kinds, k.value) && k.value !in skip
      ensures k.Some? ==> forall l :: Selected(t, since, kinds, l) && l !in skip ==>
                                        t.rows[k.value].revision <= t.rows[l].revision
    {
      var left := t.rows.Keys - skip;
      k := None;
      while left != {}
        invariant left <= t.rows.Keys - skip
        invariant k.Some? ==> Selected(t, since, kinds, k.value) && k.value !in skip
        invariant forall l :: Selected(t, since, kinds, l) && l !in skip && l !in left ==>
                                k.Some? && t.rows[k.value].revision <= t.rows[l].revision
      {
        var l :| l in left;
        if Selected(t, since, kinds, l) && (k.None? || t.rows[l].revision < t.rows[k.value].revision) { k := Some(l); }
        left := left - {l};
      }
    }

    method ChangesSince(at: nat, since: nat, kinds: seq<string>, limit: nat) returns (batch: seq<Change<B>>)
      requires at < |log|
      ensures IsScan(log[at], since, kinds, limit, batch)
    {
      var t := log[at];
      batch := [];
      var taken: set<Key> := {};
      while |batch| < limit
        invariant Ordered(t, since, kinds, batch) && |batch| <= limit
        invariant forall k :: k in taken <==> InBatch(batch, k)
      {
        var next := First(t, since, kinds, taken);
        if next.None? { return; }
        OrderedGrows(t, since, kinds, batch, next.value);
        batch := batch + [Change(next.value, t.rows[next.value])];
        taken := taken + {next.value};
      }
    }
 
    // ------------------------------------------------------------------------
    // Everybody else
    // ------------------------------------------------------------------------

    /** Nothing committed or reconciled is ever taken back. */
    twostate predicate Later()
      reads this
    {
      old(log) <= log && old(reconciled) <= reconciled
    }

    /** Whatever was submitted here since is for one tenant. */
    twostate predicate WritesOnlyFor(tenant: string)
      reads this
    {
      old(submitted) <= submitted && forall i :: |old(submitted)| <= i < |submitted| ==> submitted[i].key.tenant == tenant
    }

    /**
     Any number of steps of other processes: transactions, and batches of other passes
     (this controller's included) that read any replica and advance any watermark.
     */
    method Others()
      requires Valid()
      modifies this
      ensures Valid() && Later() && submitted == old(submitted)
      ensures alone ==> Sys() == old(Sys())
    {
      if alone { return; }
      var n: nat := *;
      while n > 0
        invariant Valid() && Later() && submitted == old(submitted)
      {
        if * {
          var w: Write<B> := *;
          var _ := Transact(w);
        } else {
          var name: string, seen: nat, at: nat, done: nat := *, *, *, *;
          if seen < |log| && at < |log| { OtherBatch(name, seen, at, done); }
        }
        n := n - 1;
      }
    }

    method OtherBatch(name: string, seen: nat, at: nat, done: nat)
      requires Valid() && seen < |log| && at < |log|
      modifies this
      ensures Valid() && Later() && submitted == old(submitted)
    {
      hide MaxRevision, Evolves, Consistent, Covered, IsScan, Items;
      var ctl := ControllerOf(config, name);
      var mark := Watermark(log[seen], name);
      var batch := ChangesSince(at, mark, ctl.kinds, ctl.batchSize);
      if done == 0 || done > |batch| { return; }
      ghost var s := Sys();
      reconciled := reconciled + Items(name, batch, done);
      AfterBatch(s, Sys(), Pass(name, mark, at, batch, done), seen);
      WriteWatermark(name, batch[done - 1].row.revision);
    }

    lemma AfterBatch(s: System<B>, s': System<B>, p: Pass<B>, seen: nat)
      requires LogOk(s) && forall n :: Covered(config, s, n, Watermark(s.tables, n))
      requires seen < |s.log| && p.at < |s.log| && p.mark == Watermark(s.log[seen], p.name) && 0 < p.done <= |p.batch|
      requires IsScan(s.log[p.at], p.mark, ControllerOf(config, p.name).kinds, ControllerOf(config, p.name).batchSize, p.batch)
      requires s' == s.(reconciled := s'.reconciled)
      requires s'.reconciled == s.reconciled + Items(p.name, p.batch, p.done)
      requires s.passes == map[]
      ensures LogOk(s') && forall n :: Covered(config, s', n, Watermark(s'.tables, n))
      ensures Covered(config, s', p.name, p.batch[p.done - 1].row.revision)
    {
      hide MaxRevision, Evolves, Consistent, Covered, IsScan;
      LogKept(s, s');
      forall n ensures Covered(config, s', n, Watermark(s'.tables, n)) {
        CoverageSurvives(config, s, s', n, Watermark(s.tables, n));
      }
      StaleWatermark(config, s, seen, p.name);
      CoverageSurvives(config, s, s', p.name, p.mark);
      BatchIsCovered(config, s', p);
    }

    // ------------------------------------------------------------------------
    // Admission, with everybody else between the read and the transaction
    // ------------------------------------------------------------------------

    method Admit(key: Key, body: B, fence: int, now: string) returns (o: Outcome<B>)
      requires Valid()
      modifies this
      ensures Valid() && Later() && Answers(Request.Admit(key, fence, now, body), old(Now()), |old(log)| - 1, log, rows, o)
      ensures WritesOnlyFor(key.tenant)
      ensures o.Stored? ==> EnteredSince(log, |old(log)| - 1, key, now,
                                         if old(key in rows && rows[key].deletedAt.None?) then Updated else Created)
      ensures alone ==> Uninterrupted(Request.Admit(key, fence, now, body), old(Now()), Now(), o)
    {
      hide MaxRevision, Txn, Consistent, Evolves, Covered, Finished, EnteredSince;
      var existing := if key in rows then Some(rows[key]) else None;
      if existing.Some? && existing.value.fence > fence { return Refused; }
      if existing.Some? && existing.value.Live() && existing.value.spec == body && existing.value.fence == fence {
        return Kept(existing.value);
      }
      var op := if existing.Some? && existing.value.Live() then Updated else Created;
      o := Finish(AdmitRow(key, fence, now, body, op));
    }

    method Retract(key: Key, fence: int, now: string) returns (o: Outcome<B>)
      requires Valid()
      modifies this
      ensures Valid() && Later() && Answers(Request.Retract(key, fence, now), old(Now()), |old(log)| - 1, log, rows, o)
      ensures WritesOnlyFor(key.tenant)
      ensures o.Stored? ==> EnteredSince(log, |old(log)| - 1, key, now, Deleted)
      ensures alone ==> Uninterrupted(Request.Retract(key, fence, now), old(Now()), Now(), o)
    {
      hide MaxRevision, Txn, Consistent, Evolves, Covered, Finished, EnteredSince;
      var existing := if key in rows then Some(rows[key]) else None;
      if existing.None? || !existing.value.Live() { return Nothing; }
      if existing.value.fence > fence { return Refused; }
      o := Finish(RetractRow(key, fence, now));
    }

    method SetStatus(key: Key, body: B, fence: int, now: string) returns (o: Outcome<B>)
      requires Valid()
      modifies this
      ensures Valid() && Later() && Answers(Request.SetStatus(key, fence, now, body), old(Now()), |old(log)| - 1, log, rows, o)
      ensures WritesOnlyFor(key.tenant)
      ensures o.Stored? ==> EnteredSince(log, |old(log)| - 1, key, now, Updated)
      ensures alone ==> Uninterrupted(Request.SetStatus(key, fence, now, body), old(Now()), Now(), o)
    {
      hide MaxRevision, Txn, Consistent, Evolves, Covered, Finished, EnteredSince;
      var existing := if key in rows then Some(rows[key]) else None;
      if existing.None? || !existing.value.Live() { return Nothing; }
      if existing.value.fence > fence { return Refused; }
      if existing.value.status == Some(body) { return Kept(existing.value); }
      o := Finish(StatusRow(key, fence, now, body));
    }

    /** Commit, then read back. */
    method Finish(w: Write<B>) returns (o: Outcome<B>)
      requires Valid() && (w.AdmitRow? || w.key in rows)
      modifies this
      ensures Valid() && Later() && submitted == old(submitted) + [w]
      ensures Finished(w, |old(log)| - 1, log, rows, o)
      ensures o.Stored? ==> EnteredSince(log, |old(log)| - 1, w.key, w.now, OutboxOp(w))
      ensures alone ==> match Txn(old(Now()), w)
                        case None => o == Aborted && Now() == old(Now())
                        case Some(t) => o.Stored? && Now() == t
    {
      hide MaxRevision, Evolves, Consistent, Covered, Txn, Finished, Entered, EnteredSince, AbortsAt;
      ghost var from := |log| - 1;
      submitted := submitted + [w];
      Others();
      ghost var commit := |log| - 1;
      RowsStay(log, from, commit, w.key);
      var ok := Transact(w);
      if !ok {
        AbortedIs(w, from, commit, log, rows);
        return Aborted;
      }
      TxnLeavesRow(log[commit], w);
      CommitEnters(log, commit, w);
      ghost var committed := log;
      Others();
      EnteredLater(committed, log, commit, w);
      RowsStay(log, commit + 1, |log| - 1, w.key);
      StoredIs(w, from, commit, log, rows);
      o := Stored(rows[w.key]);
    }

    lemma EnteredLater(log: seq<Tables<B>>, later: seq<Tables<B>>, i: nat, w: Write<B>)
      requires CommitsAt(log, i, w) && Entered(log, i, w.key, w.now, OutboxOp(w)) && log <= later
      ensures CommitsAt(later, i, w) && Entered(later, i, w.key, w.now, OutboxOp(w))
    {
      hide MaxRevision, Txn;
    }

    lemma AbortedIs(w: Write<B>, from: nat, i: nat, log: seq<Tables<B>>, rows: map<Key, Row<B>>)
      requires from <= i < |log| && Txn(log[i], w).None?
      ensures Finished(w, from, log, rows, Aborted)
    {
      hide Txn;
      assert AbortsAt(log, i, w);
    }

    lemma StoredIs(w: Write<B>, from: nat, i: nat, log: seq<Tables<B>>, rows: map<Key, Row<B>>)
      requires from <= i && CommitsAt(log, i, w) && Entered(log, i, w.key, w.now, OutboxOp(w)) && w.key in rows
      ensures Finished(w, from, log, rows, Stored(rows[w.key]))
      ensures EnteredSince(log, from, w.key, w.now, OutboxOp(w))
    {
      hide MaxRevision, Txn;
    }

    /** A row of a committed state is still there in every later one. */
    lemma RowsStay(log: seq<Tables<B>>, i: nat, j: nat, k: Key)
      requires i <= j < |log| && Evolves(log[i], log[j])
      ensures k in log[i].rows ==> k in log[j].rows
    {}

    lemma TxnLeavesRow(t: Tables<B>, w: Write<B>)
      requires Txn(t, w).Some? && (w.AdmitRow? || w.key in t.rows)
      ensures w.key in Txn(t, w).value.rows
    {}
 
    // ------------------------------------------------------------------------
    // A controller's pass
    // ------------------------------------------------------------------------

    /** Which committed state this node's replica happens to serve. */
    method Replica() returns (at: nat)
      requires Valid()
      ensures at < |log|
      ensures alone ==> log[at] == Now()
    {
      at := *;
      if alone || at >= |log| { at := |log| - 1; }
    }

    /** `get`: one row from the replica, tombstones hidden. */
    method GetRow(key: Key) returns (row: Option<Row<B>>)
      requires Valid()
      ensures exists at :: 0 <= at < |log| && row == Get(log[at], key)
      ensures alone ==> row == Get(Now(), key)
    {
      var at := Replica();
      row := Get(log[at], key);
    }

    /** The reconciler: whatever it writes, and possibly a failure. */
    method ReconcileOne(throws: bool) returns (ok: bool)
      requires Valid()
      modifies this
      ensures Valid() && Later() && ok == !throws
      ensures alone ==> Sys() == old(Sys())
    {
      Others();
      ok := !throws;
    }

    lemma PassLater(s: System<B>, s': System<B>, p: Pass<B>)
      requires LogOk(s) && LogOk(s') && s.log <= s'.log && s.reconciled <= s'.reconciled && PassOk(config, s, p)
      ensures PassOk(config, s', p)
    {
      hide MaxRevision, Evolves, Consistent, PassOk;
      assert s'.log[|s.log| - 1] == s.tables;
      PassSurvives(config, s, s', p);
    }

    /**
     The inner loop: reconcile in order until the batch ends, the deadline passes or the
     reconciler throws. `clock` counts the readings left before the deadline, `failAt`
     the reconciles that succeed before one throws.
     */
    method ReconcileBatch(
      name: string, mark: nat, at: nat, batch: seq<Change<B>>, clock: nat, failAt: Option<nat>)
      returns (done: nat, left: nat, ok: bool)
      requires Valid() && PassOk(config, Sys(), Pass(name, mark, at, batch, 0))
      modifies this
      ensures Valid() && Later()
      ensures done == Budget(|batch|, clock, failAt)
      ensures ok <==> !(failAt == Some(done) && done < |batch| && done < clock)
      ensures left == clock - done - (if ok then 0 else 1)
      ensures PassOk(config, Sys(), Pass(name, mark, at, batch, done))
      ensures alone ==> Now() == old(Now()) && log == old(log)
    {
      hide MaxRevision, Evolves, Consistent, Covered, IsScan;
      done, left, ok := 0, clock, true;
      while done < |batch|
        invariant Valid() && Later() && ok
        invariant done <= Budget(|batch|, clock, failAt) && left == clock - done
        invariant PassOk(config, Sys(), Pass(name, mark, at, batch, done))
        invariant alone ==> Now() == old(Now()) && log == old(log)
      {
        if left == 0 { return; }
        left := left - 1;
        ghost var s := Sys();
        ok := ReconcileOne(failAt == Some(done));
        PassLater(s, Sys(), Pass(name, mark, at, batch, done));
        if !ok { return; }
        s := Sys();
        var item := batch[done];
        reconciled := reconciled + {(name, item.key, item.row.revision)};
        StillValid(s, Sys());
        PassLater(s, Sys(), Pass(name, mark, at, batch, done));
        done := done + 1;
      }
    }

    lemma StillValid(s: System<B>, s': System<B>)
      requires LogOk(s) && forall n :: Covered(config, s, n, Watermark(s.tables, n))
      requires s' == s.(reconciled := s'.reconciled) && s.reconciled <= s'.reconciled
      ensures LogOk(s') && forall n :: Covered(config, s', n, Watermark(s'.tables, n))
    {
      hide MaxRevision, Evolves, Consistent, Covered;
      LogKept(s, s');
      forall n ensures Covered(config, s', n, Watermark(s'.tables, n)) {
        CoverageSurvives(config, s, s', n, Watermark(s.tables, n));
      }
    }

    /**
     One turn of the outer loop: scan, reconcile, raise the watermark to the last item
     reconciled. A throw leaves the watermark where it was.
     */
    method Round(name: string, mark: nat, clock: nat, failAt: Option<nat>)
      returns (p: Pass<B>, left: nat, end: RoundEnd)
      requires Valid() && Covered(config, Sys(), name, mark)
      modifies this
      ensures Valid() && Later()
      ensures p.name == name && p.mark == mark && p.at < |log| && PassOk(config, Sys(), p)
      ensures IsScan(log[p.at], mark, ControllerOf(config, name).kinds, ControllerOf(config, name).batchSize, p.batch)
      ensures p.done == Budget(|p.batch|, clock, failAt)
      ensures end == Ending(p, clock, failAt)
      ensures left == clock - p.done - (if end.Failing? then 1 else 0)
      ensures end.Advancing? ==> Covered(config, Sys(), name, Reached(p)) && Reached(p) <= Watermark(Now(), name)
      ensures alone ==> log[p.at].rows == rows
      ensures alone ==> Now() == if end.Advancing? then RaiseWatermark(old(Now()), name, Reached(p)) else old(Now())
    {
      hide MaxRevision, Evolves, Consistent, Covered, IsScan;
      var ctl := ControllerOf(config, name);
      ghost var s := Sys();
      Others();
      CoveredLater(s, Sys(), name, mark);
      var at := Replica();
      var batch := ChangesSince(at, mark, ctl.kinds, ctl.batchSize);
      p, left, end := Pass(name, mark, at, batch, 0), clock, Empty;
      if batch == [] { return; }
      var done, rest, ok := ReconcileBatch(name, mark, at, batch, clock, failAt);
      p, left := Pass(name, mark, at, batch, done), rest;
      end := if !ok then Failing else if done == 0 then Late else Advancing;
      if !ok || done == 0 { return; }
      BatchIsCovered(config, Sys(), p);
      s := Sys();
      WriteWatermark(name, Reached(p));
      RaisedTo(s.tables, name, Reached(p));
      CoveredLater(s, Sys(), name, Reached(p));
      PassLater(s, Sys(), p);
    }

    lemma RaisedTo(t: Tables<B>, name: string, revision: nat)
      ensures RaiseWatermark(t, name, revision).rows == t.rows
      ensures revision <= Watermark(RaiseWatermark(t, name, revision), name)
    {}

    /** What a pass alone has done to the tables: nothing yet, or raised its watermark to where it is. */
    ghost predicate OnlyRaised(before: Tables<B>, now: Tables<B>, name: string, rounds: seq<Pass<B>>, mark: nat) {
      now == if rounds == [] then before else RaiseWatermark(before, name, mark)
    }

    lemma OnlyRaisedMeans(before: Tables<B>, now: Tables<B>, name: string, rounds: seq<Pass<B>>, mark: nat)
      requires OnlyRaised(before, now, name, rounds, mark)
      ensures now == (if rounds == [] then before else RaiseWatermark(before, name, mark)) && now.rows == before.rows
    {}

    /** Only the higher of two marks shows. */
    lemma RaisedAgain(before: Tables<B>, now: Tables<B>, name: string, rounds: seq<Pass<B>>, q: Pass<B>)
      requires OnlyRaised(before, now, name, rounds, q.mark) && 0 < q.done <= |q.batch| && q.mark < Reached(q)
      ensures OnlyRaised(before, RaiseWatermark(now, name, Reached(q)), name, rounds + [q], Reached(q))
    {}

    /** A round alone leaves the rows. */
    lemma RowsStayed(before: Tables<B>, now: Tables<B>, name: string, q: Pass<B>, end: RoundEnd)
      requires end.Advancing? ==> 0 < q.done <= |q.batch|
      requires now == if end.Advancing? then RaiseWatermark(before, name, Reached(q)) else before
      ensures now.rows == before.rows
    {}

    lemma NothingRaised(t: Tables<B>, name: string, mark: nat)
      ensures OnlyRaised(t, t, name, [], mark)
    {}

    /**
     One leased pass, with everybody else running. It starts from a watermark some replica
     showed; every round it completes reconciles a non-empty prefix of an ordered scan
     from where the one before ended and raises the durable watermark to its end; and it
     stops only because a scan came back empty, because its time is used up by those
     rounds, or because the reconciler threw.
     */
    method RunPass(name: string, clock: nat, failAt: Option<nat>)
      returns (ghost start: nat, ghost rounds: seq<Pass<B>>, ghost p: Pass<B>, end: RoundEnd)
      requires Valid()
      modifies this
      ensures Valid() && Later()
      ensures start < |old(log)| && Going(Sys(), name, Watermark(old(log)[start], name), rounds, p)
      ensures end.Empty? ==> Spent(rounds) < clock && p.at < |log|
                             && IsScan(log[p.at], p.mark, ControllerOf(config, name).kinds,
                                       ControllerOf(config, name).batchSize, [])
      ensures end.Late? || end.Advancing? ==> clock <= Spent(rounds) + 1
      ensures end.Failing? ==> failAt == Some(Done(rounds) + p.done) && p.done < |p.batch|
      ensures alone ==> Now() == if rounds == [] then old(Now()) else RaiseWatermark(old(Now()), name, p.mark)
      ensures alone && failAt.None? && ControllerOf(config, name).batchSize > 0
              && Ample(clock, old(rows), Watermark(old(Now()), name), ControllerOf(config, name).kinds) ==>
                end.Empty? && Unread(rows, Watermark(Now(), name), ControllerOf(config, name).kinds) == {}
    {
      hide MaxRevision, Evolves, Consistent, Covered, IsScan, Unread, PassOk, Going, Ample, Ending, RaiseWatermark, Running,
           RoundDone, Chained, Budget, Spent, Done, LogOk, Watermark, Reached, ControllerOf;
      ghost var ctl, before := ControllerOf(config, name), Now();
      var at := Replica();
      start := at;
      var mark := Watermark(log[at], name);
      rounds, p, end := [], Pass(name, mark, at, [], 0), Late;
      var left: nat, fuse: Option<nat> := clock, failAt;
      ghost var ample := alone && failAt.None? && ctl.batchSize > 0 && Ample(clock, rows, mark, ctl.kinds);
      ghost var task := Task(name, mark, clock, failAt, before, alone, ample);
      PassStarts(Sys(), at, task);
      while left > 0
        invariant Valid() && Later() && Running(Sys(), task, rounds, p, left, fuse)
        invariant p == Pass(name, mark, p.at, [], 0) && (end.Late? || end.Advancing?)
        decreases left
      {
        ghost var s := Sys();
        StillCovered(s, task, rounds, p, left, fuse);
        var q, rest, how := Round(name, mark, left - 1, fuse);
        RoundIsDone(s, Sys(), task, mark, left - 1, fuse, q, rest, how);
        if !how.Advancing? {
          PassEnds(s, Sys(), task, rounds, p, left, fuse, q, rest, how);
          p, end := q, how;
          return;
        }
        PassGoesOn(s, Sys(), task, rounds, p, left, fuse, q, rest, how);
        rounds, left, mark, end := rounds + [q], rest, Reached(q), how;
        if fuse.Some? { fuse := Some(fuse.value - q.done); }
        p := Pass(name, mark, q.at, [], 0);
      }
      PassRunsOut(Sys(), task, rounds, p, fuse);
    }

    /** Where a pass stands before a turn: what it has done, what is left of its clock and of the item that fails. */
    ghost predicate Running(s: System<B>, task: Task<B>, rounds: seq<Pass<B>>, p: Pass<B>, left: nat, fuse: Option<nat>) {
      var ctl := ControllerOf(config, task.name);
      && Going(s, task.name, task.first, rounds, p) && p.done == 0
      && left == task.clock - Spent(rounds)
      && (task.failAt.None? ==> fuse.None?)
      && (task.failAt.Some? ==> fuse.Some? && fuse.value + Done(rounds) == task.failAt.value)
      && (task.alone ==> OnlyRaised(task.before, s.tables, task.name, rounds, p.mark))
      && (task.ample ==> task.alone && task.failAt.None? && ctl.batchSize > 0
                         && Ample(left, s.tables.rows, p.mark, ctl.kinds))
    }

    /** What a turn between two states has promised. */
    ghost predicate RoundDone(
      s: System<B>, s': System<B>, task: Task<B>, mark: nat, clock: nat, fuse: Option<nat>,
      q: Pass<B>, rest: nat, end: RoundEnd)
    {
      var ctl := ControllerOf(config, task.name);
      && LogOk(s) && LogOk(s') && s.log <= s'.log && s.reconciled <= s'.reconciled
      && q.name == task.name && q.mark == mark && q.at < |s'.log| && PassOk(config, s', q)
      && IsScan(s'.log[q.at], mark, ctl.kinds, ctl.batchSize, q.batch)
      && q.done == Budget(|q.batch|, clock, fuse) && end == Ending(q, clock, fuse)
      && rest == clock - q.done - (if end.Failing? then 1 else 0)
      && (end.Advancing? ==>
            && 0 < q.done <= |q.batch|
            && Covered(config, s', task.name, Reached(q)) && Reached(q) <= Watermark(s'.tables, task.name))
      && (task.alone ==>
            && s'.log[q.at].rows == s'.tables.rows
            && s'.tables == if end.Advancing? then RaiseWatermark(s.tables, task.name, Reached(q)) else s.tables)
    }

    lemma RoundIsDone(
        s: System<B>, s': System<B>, task: Task<B>, mark: nat, clock: nat, fuse: Option<nat>,
        q: Pass<B>, rest: nat, end: RoundEnd)
      requires LogOk(s) && LogOk(s') && s.log <= s'.log && s.reconciled <= s'.reconciled
      requires q.name == task.name && q.mark == mark && q.at < |s'.log| && PassOk(config, s', q)
      requires IsScan(s'.log[q.at], mark, ControllerOf(config, task.name).kinds,
                      ControllerOf(config, task.name).batchSize, q.batch)
      requires q.done == Budget(|q.batch|, clock, fuse) && end == Ending(q, clock, fuse)
      requires rest == clock - q.done - (if end.Failing? then 1 else 0)
      requires end.Advancing? ==> Covered(config, s', task.name, Reached(q)) && Reached(q) <= Watermark(s'.tables, task.name)
      requires task.alone ==> s'.log[q.at].rows == s'.tables.rows
      requires task.alone ==> s'.tables == if end.Advancing? then RaiseWatermark(s.tables, task.name, Reached(q)) else s.tables
      ensures RoundDone(s, s', task, mark, clock, fuse, q, rest, end)
      ensures end.Advancing? ==> 0 < q.done <= |q.batch| && (fuse.Some? ==> q.done <= fuse.value)
    {
      hide MaxRevision, Evolves, Consistent, Covered, IsScan, PassOk, RaiseWatermark;
      HowItEnds(q, clock, fuse);
    }

    lemma PassStarts(s: System<B>, at: nat, task: Task<B>)
      requires LogOk(s) && forall n :: Covered(config, s, n, Watermark(s.tables, n))
      requires at < |s.log| && s.passes == map[] && task.first == Watermark(s.log[at], task.name) && task.before == s.tables
      requires var ctl := ControllerOf(config, task.name);
               task.ample ==> task.alone && task.failAt.None? && ctl.batchSize > 0
                              && Ample(task.clock, s.tables.rows, task.first, ctl.kinds)
      ensures Running(s, task, [], Pass(task.name, task.first, at, [], 0), task.clock, task.failAt)
    {
      hide MaxRevision, Evolves, Consistent, Covered, PassOk, Ample, Going;
      GoingStart(s, at, task.name);
      NothingRaised(s.tables, task.name, task.first);
    }

    lemma StillCovered(s: System<B>, task: Task<B>, rounds: seq<Pass<B>>, p: Pass<B>, left: nat, fuse: Option<nat>)
      requires Running(s, task, rounds, p, left, fuse)
      ensures Covered(config, s, task.name, p.mark)
    {
      hide Going, Ample, OnlyRaised, Covered;
      GoingCovered(s, task.name, task.first, rounds, p);
    }

    lemma PassEnds(
        s: System<B>, s': System<B>, task: Task<B>, rounds: seq<Pass<B>>, p: Pass<B>, left: nat, fuse: Option<nat>,
        q: Pass<B>, rest: nat, end: RoundEnd)
      requires Running(s, task, rounds, p, left, fuse) && left > 0
      requires RoundDone(s, s', task, p.mark, left - 1, fuse, q, rest, end) && !end.Advancing?
      ensures Going(s', task.name, task.first, rounds, q)
      ensures q.at < |s'.log| && (end.Empty? ==> q.batch == [] && Spent(rounds) < task.clock)
      ensures IsScan(s'.log[q.at], q.mark, ControllerOf(config, task.name).kinds,
                     ControllerOf(config, task.name).batchSize, q.batch)
      ensures end.Late? ==> task.clock <= Spent(rounds) + 1
      ensures end.Failing? ==> task.failAt == Some(Done(rounds) + q.done) && q.done < |q.batch|
      ensures task.alone ==> s'.tables == if rounds == [] then task.before else RaiseWatermark(task.before, task.name, q.mark)
      ensures task.ample ==> end.Empty? && Unread(s'.tables.rows, Watermark(s'.tables, task.name),
                                                  ControllerOf(config, task.name).kinds) == {}
    {
      hide MaxRevision, Evolves, Consistent, Covered, IsScan, Unread, PassOk, Going, Ample, RaiseWatermark, OnlyRaised, Ending;
      var ctl := ControllerOf(config, task.name);
      HowItEnds(q, left - 1, fuse);
      GoingRound(s, s', task.name, task.first, rounds, p, q);
      GoingCovered(s', task.name, task.first, rounds, q);
      if task.alone { OnlyRaisedMeans(task.before, s.tables, task.name, rounds, p.mark); }
      if task.ample {
        AmpleRound(s'.log[q.at], q, ctl.kinds, ctl.batchSize, left);
        UnreadFalls(s'.tables.rows, q.mark, Watermark(s'.tables, task.name), ctl.kinds);
      }
    }

    lemma PassGoesOn(
        s: System<B>, s': System<B>, task: Task<B>, rounds: seq<Pass<B>>, p: Pass<B>, left: nat, fuse: Option<nat>,
        q: Pass<B>, rest: nat, end: RoundEnd)
      requires Running(s, task, rounds, p, left, fuse) && left > 0
      requires RoundDone(s, s', task, p.mark, left - 1, fuse, q, rest, end) && end.Advancing?
      requires fuse.Some? ==> q.done <= fuse.value
      ensures Running(s', task, rounds + [q], Pass(task.name, Reached(q), q.at, [], 0), rest,
                      if fuse.Some? then Some(fuse.value - q.done) else None)
    {
      hide MaxRevision, Evolves, Consistent, Covered, IsScan, Unread, PassOk, Going, Ample, RaiseWatermark, OnlyRaised, Ending;
      var ctl := ControllerOf(config, task.name);
      GoingRound(s, s', task.name, task.first, rounds, p, q);
      GoingOn(s', task.name, task.first, rounds, q);
      ScanAscends(s'.log[q.at], q, ctl.kinds, ctl.batchSize);
      if task.alone {
        RaisedAgain(task.before, s.tables, task.name, rounds, q);
        RowsStayed(s.tables, s'.tables, task.name, q, end);
      }
      if task.ample { AmpleRound(s'.log[q.at], q, ctl.kinds, ctl.batchSize, left); }
    }

    lemma PassRunsOut(s: System<B>, task: Task<B>, rounds: seq<Pass<B>>, p: Pass<B>, fuse: Option<nat>)
      requires Running(s, task, rounds, p, 0, fuse)
      ensures Going(s, task.name, task.first, rounds, p) && task.clock <= Spent(rounds) + 1 && !task.ample
      ensures task.alone ==> s.tables == if rounds == [] then task.before else RaiseWatermark(task.before, task.name, p.mark)
    {
      hide Going, Ample, RaiseWatermark, OnlyRaised, Unread;
      if task.alone { OnlyRaisedMeans(task.before, s.tables, task.name, rounds, p.mark); }
      NeverSpent(s.tables.rows, p.mark, ControllerOf(config, task.name).kinds);
    }

    /**
     A pass under way: its rounds so far, the mark they have reached, and the turn it is in.
     Everything at or below the mark is reconciled, and the durable watermark is not below.
     */
    ghost predicate Going(s: System<B>, name: string, first: nat, rounds: seq<Pass<B>>, p: Pass<B>) {
      && p.name == name && PassOk(config, s, p) && p.mark <= Watermark(s.tables, name)
      && Chained(rounds, name, first, p.mark)
      && forall i :: 0 <= i < |rounds| ==> PassOk(config, s, rounds[i])
    }

    lemma GoingStart(s: System<B>, at: nat, name: string)
      requires LogOk(s) && forall n :: Covered(config, s, n, Watermark(s.tables, n))
      requires at < |s.log| && s.passes == map[]
      ensures var first := Watermark(s.log[at], name); Going(s, name, first, [], Pass(name, first, at, [], 0))
    {
      hide MaxRevision, Consistent, Covered;
      StaleWatermarkHere(s, at, name);
      assert Evolves(s.log[at], s.tables);
    }

    lemma GoingCovered(s: System<B>, name: string, first: nat, rounds: seq<Pass<B>>, p: Pass<B>)
      requires Going(s, name, first, rounds, p)
      ensures Covered(config, s, name, p.mark) && p.mark <= Watermark(s.tables, name)
    {
      hide Covered;
    }

    lemma GoingRound(
        s: System<B>, s': System<B>, name: string, first: nat, rounds: seq<Pass<B>>, p: Pass<B>, q: Pass<B>)
      requires LogOk(s) && LogOk(s') && s.log <= s'.log && s.reconciled <= s'.reconciled
      requires Going(s, name, first, rounds, p) && q.name == name && q.mark == p.mark && PassOk(config, s', q)
      ensures Going(s', name, first, rounds, q)
    {
      hide MaxRevision, Consistent, PassOk;
      assert s'.log[|s.log| - 1] == s.tables && Evolves(s.tables, s'.tables);
      forall i | 0 <= i < |rounds| ensures PassOk(config, s', rounds[i]) { PassLater(s, s', rounds[i]); }
    }

    lemma GoingOn(s: System<B>, name: string, first: nat, rounds: seq<Pass<B>>, q: Pass<B>)
      requires Going(s, name, first, rounds, q) && 0 < q.done <= |q.batch|
      requires Covered(config, s, name, Reached(q)) && Reached(q) <= Watermark(s.tables, name)
      ensures Going(s, name, first, rounds + [q], Pass(name, Reached(q), q.at, [], 0))
      ensures Done(rounds + [q]) == Done(rounds) + q.done
    {
      hide Covered;
      assert (rounds + [q])[..|rounds|] == rounds;
      NewPass(s, Pass(name, Reached(q), q.at, [], 0));
    }

    lemma NewPass(s: System<B>, p: Pass<B>)
      requires Covered(config, s, p.name, p.mark) && p.batch == [] && p.done == 0
      ensures PassOk(config, s, p)
    {}

    lemma StaleWatermarkHere(s: System<B>, at: nat, name: string)
      requires LogOk(s) && forall n :: Covered(config, s, n, Watermark(s.tables, n))
      requires at < |s.log| && s.passes == map[]
      ensures Covered(config, s, name, Watermark(s.log[at], name))
    {
      StaleWatermark(config, s, at, name);
    }

    lemma CoveredLater(s: System<B>, s': System<B>, name: string, m: nat)
      requires LogOk(s) && LogOk(s') && s.log <= s'.log && s.reconciled <= s'.reconciled && Covered(config, s, name, m)
      ensures Covered(config, s', name, m)
    {
      hide MaxRevision, Evolves, Consistent;
      assert s'.log[|s.log| - 1] == s.tables;
      CoverageSurvives(config, s, s', name, m);
    }
  }
}
