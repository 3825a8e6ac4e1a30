/**
 The control plane as a protocol: any number of writers, leases, replicas and
 controller passes, interleaved step by step.

 - A writer reads its row consistently, decides, and commits its transaction in a
   later step; anything may commit in between, and it may vanish at any point.
 - A replica read (a watermark, a scan) sees any earlier committed state, and two
   reads need not see the same one.
 - A pass may be overtaken: its lease expires while it runs, so any number of passes
   of one controller overlap. It may stop after any step: deadline, failing
   reconcile, crash.
 */
module ControlRuns {
  import opened Wrappers
  import opened ControlTables
  import opened Admission

  // --------------------------------------------------------------------------
  // The change feed
  // --------------------------------------------------------------------------

  datatype Change<B> = Change(key: Key, row: Row<B>)

  /** Kinds to observe; the empty list means every kind. */
  predicate Watches(kinds: seq<string>, kind: string) { kinds == [] || kind in kinds }

  predicate Selected<B>(t: Tables<B>, since: nat, kinds: seq<string>, k: Key) {
    k in t.rows && t.rows[k].revision > since && Watches(kinds, k.kind)
  }

  ghost predicate InBatch<B>(batch: seq<Change<B>>, k: Key) {
    exists i :: 0 <= i < |batch| && batch[i].key == k
  }

  /** Selected rows only, each once, in order, and nothing selected is left out before the last. */
  ghost predicate Ordered<B>(t: Tables<B>, since: nat, kinds: seq<string>, batch: seq<Change<B>>) {
    && (forall i :: 0 <= i < |batch| ==> Selected(t, since, kinds, batch[i].key) && batch[i].row == t.rows[batch[i].key])
    && (forall i, j :: 0 <= i < j < |batch| ==>
          batch[i].key != batch[j].key && batch[i].row.revision <= batch[j].row.revision)
    && (forall i, k :: 0 <= i < |batch| && Selected(t, since, kinds, k) && !InBatch(batch, k) ==>
          batch[i].row.revision <= t.rows[k].revision)
  }

  /** `SELECT * ... WHERE revision > since AND kind IN (...) ORDER BY revision LIMIT n`. */
  ghost predicate IsScan<B>(t: Tables<B>, since: nat, kinds: seq<string>, limit: nat, batch: seq<Change<B>>) {
    && Ordered(t, since, kinds, batch)
    && |batch| <= limit
    && (|batch| < limit ==> forall k :: Selected(t, since, kinds, k) ==> InBatch(batch, k))
  }

  lemma OrderedGrows<B>(t: Tables<B>, since: nat, kinds: seq<string>, batch: seq<Change<B>>, k: Key)
    requires Ordered(t, since, kinds, batch) && Selected(t, since, kinds, k) && !InBatch(batch, k)
    requires forall l :: Selected(t, since, kinds, l) && !InBatch(batch, l) ==> t.rows[k].revision <= t.rows[l].revision
    ensures Ordered(t, since, kinds, batch + [Change(k, t.rows[k])])
    ensures forall l :: InBatch(batch + [Change(k, t.rows[k])], l) <==> l == k || InBatch(batch, l)
  {
    var more := batch + [Change(k, t.rows[k])];
    forall l ensures InBatch(more, l) <==> l == k || InBatch(batch, l) {
      if InBatch(batch, l) { var i :| 0 <= i < |batch| && batch[i].key == l; assert more[i].key == l; }
      if l == k { assert more[|batch|].key == k; }
    }
  }

  /** Nothing selected at or below the revision of a scanned item is missing before it. */
  lemma ScanCovers<B>(t: Tables<B>, since: nat, kinds: seq<string>, limit: nat, batch: seq<Change<B>>, n: nat, k: Key)
    requires Consistent(t) && IsScan(t, since, kinds, limit, batch)
    requires n < |batch| && Selected(t, since, kinds, k) && t.rows[k].revision <= batch[n].row.revision
    ensures exists i :: 0 <= i <= n && batch[i].key == k
  {
    if !InBatch(batch, k) {
      RevisionsDistinct(t, k, batch[n].key);
    } else {
      var i :| 0 <= i < |batch| && batch[i].key == k;
      if i > n { RevisionsDistinct(t, k, batch[n].key); }
    }
  }

  /**
   Which rows a scan holds: those above the mark of a watched kind, or of any kind if none
   is named, tombstones too, as they are; all of them if there was room, and otherwise all
   up to the last. They come in strictly ascending order.
   */
  lemma ScanExact<B>(t: Tables<B>, since: nat, kinds: seq<string>, limit: nat, batch: seq<Change<B>>, k: Key)
    requires Consistent(t) && IsScan(t, since, kinds, limit, batch)
    ensures |batch| <= limit && forall i, j :: 0 <= i < j < |batch| ==> batch[i].row.revision < batch[j].row.revision
    ensures InBatch(batch, k) <==>
            && k in t.rows && t.rows[k].revision > since && (kinds == [] || k.kind in kinds)
            && (|batch| < limit || (batch != [] && t.rows[k].revision <= batch[|batch| - 1].row.revision))
    ensures forall i :: 0 <= i < |batch| ==> batch[i].key in t.rows && batch[i].row == t.rows[batch[i].key]
  {
    hide MaxRevision, Gapless;
    forall i | 0 <= i < |batch| ensures batch[i].key in t.rows && batch[i].row == t.rows[batch[i].key] {
      assert Selected(t, since, kinds, batch[i].key);
    }
    forall i, j | 0 <= i < j < |batch| ensures batch[i].row.revision < batch[j].row.revision {
      var a, b := batch[i], batch[j];
      if a.row.revision == b.row.revision { RevisionsDistinct(t, a.key, b.key); }
    }
    var last: nat := if batch == [] then 0 else |batch| - 1;
    if InBatch(batch, k) {
      var i :| 0 <= i < |batch| && batch[i].key == k;
      assert Selected(t, since, kinds, k);
    } else if Selected(t, since, kinds, k) && batch != [] && t.rows[k].revision <= batch[last].row.revision {
      ScanCovers(t, since, kinds, limit, batch, last, k);
    }
  }

  // --------------------------------------------------------------------------
  // The system and its steps
  // --------------------------------------------------------------------------

  datatype Controller = Controller(kinds: seq<string>, batchSize: nat)

  /** The registered controllers by name, and the lease whose token guards each kind. */
  datatype Config = Config(controllers: map<string, Controller>, leaseOf: map<string, string>)

  /**
   One leased pass. `at` names the committed state its current batch was read from;
   `done` items of the batch have been reconciled.
   */
  datatype Pass<B> = Pass(name: string, mark: nat, at: nat, batch: seq<Change<B>>, done: nat)

  datatype System<B> = System(
    tables: Tables<B>,
    log: seq<Tables<B>>,                        // every committed state, oldest first
    issued: map<string, nat>,                   // newest token per lease key
    writers: map<nat, Write<B>>,                // decided, not yet committed
    passes: map<nat, Pass<B>>,
    reconciled: set<(string, Key, nat)>)        // controller, row, revision

  datatype Event<B> =
    | Ask(id: nat, req: Request<B>)
    | Commit(id: nat)
    | Drop(id: nat)
    | Acquire(lease: string)
    | Begin(id: nat, name: string, at: nat)
    | Scan(id: nat, at: nat, batch: seq<Change<B>>)
    | Reconcile(id: nat)
    | Advance(id: nat)
    | End(id: nat)

  function Issued<B>(s: System<B>, lease: string): nat {
    if lease in s.issued then s.issued[lease] else 0
  }

  function LeaseOf(c: Config, kind: string): string {
    if kind in c.leaseOf then c.leaseOf[kind] else ""
  }

  function ControllerOf(c: Config, name: string): Controller {
    if name in c.controllers then c.controllers[name] else Controller([], 0)
  }

  ghost predicate Enabled<B>(c: Config, s: System<B>, e: Event<B>) {
    match e
    case Ask(id, _) => id !in s.writers
    case Commit(id) => id in s.writers
    case Begin(id, _, at) => id !in s.passes && at < |s.log|
    case Scan(id, at, batch) =>
      && id in s.passes && s.passes[id].batch == [] && at < |s.log| && batch != []
      && var p := s.passes[id]; var ctl := ControllerOf(c, p.name);
         IsScan(s.log[at], p.mark, ctl.kinds, ctl.batchSize, batch)
    case Reconcile(id) => id in s.passes && s.passes[id].done < |s.passes[id].batch|
    case Advance(id) => id in s.passes && 0 < s.passes[id].done <= |s.passes[id].batch|
    case _ => true
  }

  function Committed<B>(s: System<B>, t: Tables<B>): System<B> {
    s.(tables := t, log := s.log + [t])
  }

  ghost function Next<B>(c: Config, s: System<B>, e: Event<B>): System<B>
    requires Enabled(c, s, e)
  {
    match e
    case Ask(id, req) =>
      (match Decide(req, ReadRow(s.tables, req.key))
       case Proceed(w) => s.(writers := s.writers[id := w])
       case _ => s)
    case Commit(id) =>
      var s' := s.(writers := s.writers - {id});
      (match Txn(s.tables, s.writers[id])
       case None => s'
       case Some(t) => Committed(s', t))
    case Drop(id) => s.(writers := s.writers - {id})
    case Acquire(lease) => s.(issued := s.issued[lease := Issued(s, lease) + 1])
    case Begin(id, name, at) =>
      s.(passes := s.passes[id := Pass(name, Watermark(s.log[at], name), 0, [], 0)])
    case Scan(id, at, batch) => s.(passes := s.passes[id := s.passes[id].(at := at, batch := batch, done := 0)])
    case Reconcile(id) =>
      var p := s.passes[id];
      var item := p.batch[p.done];
      s.(passes := s.passes[id := p.(done := p.done + 1)],
         reconciled := s.reconciled + {(p.name, item.key, item.row.revision)})
    case Advance(id) =>
      var p := s.passes[id];
      var mark := p.batch[p.done - 1].row.revision;
      Committed(s.(passes := s.passes[id := p.(mark := mark, batch := [], done := 0)]),
                RaiseWatermark(s.tables, p.name, mark))
    case End(id) => s.(passes := s.passes - {id})
  }

  function Init<B>(): System<B> {
    System(EmptyTables(), [EmptyTables()], map[], map[], map[], {})
  }

  ghost predicate IsRun<B>(c: Config, run: seq<System<B>>, events: seq<Event<B>>) {
    && |run| == |events| + 1 && run[0] == Init()
    && forall i :: 0 <= i < |events| ==> Enabled(c, run[i], events[i]) && run[i + 1] == Next(c, run[i], events[i])
  }

  // --------------------------------------------------------------------------
  // The inductive invariant
  // --------------------------------------------------------------------------

  /** Every watched row at or below `m` has been reconciled at exactly its revision. */
  ghost predicate Covered<B>(c: Config, s: System<B>, name: string, m: nat) {
    && m <= MaxRevision(s.tables.rows)
    && forall k :: k in s.tables.rows && Watches(ControllerOf(c, name).kinds, k.kind) && s.tables.rows[k].revision <= m
         ==> (name, k, s.tables.rows[k].revision) in s.reconciled
  }

  ghost predicate LogOk<B>(s: System<B>) {
    && s.log != [] && s.log[|s.log| - 1] == s.tables
    && forall i :: 0 <= i < |s.log| ==> Consistent(s.log[i]) && Evolves(s.log[i], s.tables)
  }

  ghost predicate PassOk<B>(c: Config, s: System<B>, p: Pass<B>) {
    && Covered(c, s, p.name, p.mark)
    && p.done <= |p.batch|
    && (p.batch != [] ==>
          && p.at < |s.log|
          && IsScan(s.log[p.at], p.mark, ControllerOf(c, p.name).kinds, ControllerOf(c, p.name).batchSize, p.batch))
    && forall i :: 0 <= i < p.done ==> (p.name, p.batch[i].key, p.batch[i].row.revision) in s.reconciled
  }

  ghost predicate FeedOk<B>(c: Config, s: System<B>) {
    && (forall name :: Covered(c, s, name, Watermark(s.tables, name)))
    && (forall id :: id in s.passes ==> PassOk(c, s, s.passes[id]))
  }

  ghost predicate Inv<B>(c: Config, s: System<B>) {
    LogOk(s) && FeedOk(c, s)
  }

  /** A later committed state, with nothing forgotten, covers what an earlier one covered. */
  lemma CoverageSurvives<B>(c: Config, s: System<B>, s': System<B>, name: string, m: nat)
    requires Covered(c, s, name, m) && Evolves(s.tables, s'.tables) && s.reconciled <= s'.reconciled
    ensures Covered(c, s', name, m)
  {
    hide MaxRevision;
    forall k | k in s'.tables.rows && Watches(ControllerOf(c, name).kinds, k.kind) && s'.tables.rows[k].revision <= m
      ensures (name, k, s'.tables.rows[k].revision) in s'.reconciled
    {
      assert KeptOrNewer(s.tables, s'.tables, k);
    }
  }

  lemma PassSurvives<B>(c: Config, s: System<B>, s': System<B>, p: Pass<B>)
    requires PassOk(c, s, p) && Evolves(s.tables, s'.tables) && s.reconciled <= s'.reconciled && s.log <= s'.log
    ensures PassOk(c, s', p)
  {
    hide MaxRevision;
    CoverageSurvives(c, s, s', p.name, p.mark);
  }

  /** A watched row between the mark and a scanned revision, whatever was scanned since when. */
  lemma ScannedSince<B>(c: Config, s: System<B>, p: Pass<B>, k: Key)
    requires LogOk(s) && PassOk(c, s, p) && 0 < p.done
    requires k in s.tables.rows && Watches(ControllerOf(c, p.name).kinds, k.kind)
    requires p.mark < s.tables.rows[k].revision <= p.batch[p.done - 1].row.revision
    ensures (p.name, k, s.tables.rows[k].revision) in s.reconciled
  {
    hide MaxRevision, Covered, IsScan, Evolves, Consistent, LogOk, Selected;
    var seen, ctl := s.log[p.at], ControllerOf(c, p.name);
    var m := p.batch[p.done - 1].row.revision;
    LogAt(s, p.at);
    ScannedRow(seen, p.mark, ctl.kinds, ctl.batchSize, p.batch, p.done - 1);
    BelowWasThere(seen, s.tables, k, m);
    assert Selected(seen, p.mark, ctl.kinds, k) by { IsSelected(seen, p.mark, ctl.kinds, k); }
    ScanCovers(seen, p.mark, ctl.kinds, ctl.batchSize, p.batch, p.done - 1, k);
    var i :| 0 <= i <= p.done - 1 && p.batch[i].key == k;
    ScannedRow(seen, p.mark, ctl.kinds, ctl.batchSize, p.batch, i);
  }

  lemma LogAt<B>(s: System<B>, at: nat)
    requires LogOk(s) && at < |s.log|
    ensures Consistent(s.log[at]) && Evolves(s.log[at], s.tables)
  {}

  lemma IsSelected<B>(t: Tables<B>, since: nat, kinds: seq<string>, k: Key)
    requires k in t.rows && t.rows[k].revision > since && Watches(kinds, k.kind)
    ensures Selected(t, since, kinds, k)
  {}

  lemma ScannedRow<B>(t: Tables<B>, since: nat, kinds: seq<string>, limit: nat, batch: seq<Change<B>>, i: nat)
    requires IsScan(t, since, kinds, limit, batch) && i < |batch|
    ensures batch[i].key in t.rows && batch[i].row == t.rows[batch[i].key]
  {
    assert Selected(t, since, kinds, batch[i].key);
  }

  /** A row no newer than something an earlier state held is as that state held it. */
  lemma BelowWasThere<B>(a: Tables<B>, b: Tables<B>, k: Key, m: nat)
    requires Evolves(a, b) && k in b.rows && b.rows[k].revision <= m
    requires exists l :: l in a.rows && a.rows[l].revision == m
    ensures k in a.rows && a.rows[k] == b.rows[k]
  {
    assert KeptOrNewer(a, b, k);
  }

  /**
   The heart of the watermark: the last reconciled revision of a batch, scanned from a
   state however stale, is covered now. A row with a smaller revision was not written
   since, so the scan either saw it or it was covered before the scan.
   */
  lemma BatchIsCovered<B>(c: Config, s: System<B>, p: Pass<B>)
    requires LogOk(s) && PassOk(c, s, p) && 0 < p.done
    ensures Covered(c, s, p.name, p.batch[p.done - 1].row.revision)
  {
    hide MaxRevision, IsScan, Consistent;
    var m := p.batch[p.done - 1].row.revision;
    assert Evolves(s.log[p.at], s.tables);
    ScannedRow(s.log[p.at], p.mark, ControllerOf(c, p.name).kinds, ControllerOf(c, p.name).batchSize, p.batch, p.done - 1);
    RevisionBelowMax(s.log[p.at].rows, p.batch[p.done - 1].key);
    forall k | k in s.tables.rows && Watches(ControllerOf(c, p.name).kinds, k.kind) && s.tables.rows[k].revision <= m
      ensures (p.name, k, s.tables.rows[k].revision) in s.reconciled
    {
      if s.tables.rows[k].revision > p.mark { ScannedSince(c, s, p, k); }
    }
  }

  lemma RevisionBelowMax<B>(rows: map<Key, Row<B>>, k: Key)
    requires k in rows
    ensures rows[k].revision <= MaxRevision(rows)
  {}

  /** A replica's watermark is never above the current one. */
  lemma StaleWatermark<B>(c: Config, s: System<B>, at: nat, name: string)
    requires LogOk(s) && FeedOk(c, s) && at < |s.log|
    ensures Covered(c, s, name, Watermark(s.log[at], name))
  {
    hide MaxRevision;
    assert Evolves(s.log[at], s.tables);
    assert Covered(c, s, name, Watermark(s.tables, name));
  }

  lemma LogGrows<B>(s: System<B>, t: Tables<B>)
    requires LogOk(s) && Consistent(t) && Evolves(s.tables, t)
    ensures LogOk(Committed(s, t))
  {
    hide MaxRevision;
    var s' := Committed(s, t);
    forall i | 0 <= i < |s'.log| ensures Consistent(s'.log[i]) && Evolves(s'.log[i], t) {
      if i < |s.log| { EvolvesTransitive(s.log[i], s.tables, t); }
    }
  }

  // --------------------------------------------------------------------------
  // One step keeps the invariant
  // --------------------------------------------------------------------------

  lemma FeedSurvives<B>(c: Config, s: System<B>, s': System<B>)
    requires FeedOk(c, s) && Evolves(s.tables, s'.tables) && s.reconciled <= s'.reconciled && s.log <= s'.log
    requires forall name ::
               Watermark(s'.tables, name) == Watermark(s.tables, name) || Covered(c, s, name, Watermark(s'.tables, name))
    requires forall id :: id in s'.passes ==> (id in s.passes && s'.passes[id] == s.passes[id]) || PassOk(c, s', s'.passes[id])
    ensures FeedOk(c, s')
  {
    hide MaxRevision;
    forall name ensures Covered(c, s', name, Watermark(s'.tables, name)) {
      assert Covered(c, s, name, Watermark(s.tables, name));
      CoverageSurvives(c, s, s', name, Watermark(s'.tables, name));
    }
    forall id | id in s'.passes ensures PassOk(c, s', s'.passes[id]) {
      if id in s.passes && s'.passes[id] == s.passes[id] { PassSurvives(c, s, s', s.passes[id]); }
    }
  }

  lemma LogKept<B>(s: System<B>, s': System<B>)
    requires LogOk(s) && s'.log == s.log && s'.tables == s.tables
    ensures LogOk(s') && Consistent(s.tables) && Evolves(s.tables, s.tables)
  {
    hide MaxRevision, Evolves, Consistent;
    assert Consistent(s.log[|s.log| - 1]) && Evolves(s.log[|s.log| - 1], s.tables);
  }

  lemma TxnKeepsWatermarks<B>(t: Tables<B>, w: Write<B>)
    requires Txn(t, w).Some?
    ensures Txn(t, w).value.watermarks == t.watermarks
  {}

  lemma CommitStep<B>(c: Config, s: System<B>, id: nat)
    requires Inv(c, s) && id in s.writers
    ensures Inv(c, Next(c, s, Commit(id)))
  {
    hide MaxRevision, Evolves, Consistent, Txn, Covered, PassOk;
    var w := s.writers[id];
    var s' := Next(c, s, Commit(id));
    LogKept(s, s);
    if Txn(s.tables, w).Some? {
      TxnKeeps(s.tables, w);
      TxnKeepsWatermarks(s.tables, w);
      LogGrows(s, s'.tables);
    } else {
      LogKept(s, s');
    }
    FeedSurvives(c, s, s');
  }

  lemma AdvanceStep<B>(c: Config, s: System<B>, id: nat)
    requires Inv(c, s) && Enabled(c, s, Advance(id))
    ensures Inv(c, Next(c, s, Advance(id)))
  {
    hide MaxRevision, Evolves, Consistent, Covered, IsScan;
    var p := s.passes[id];
    var mark := p.batch[p.done - 1].row.revision;
    var s' := Next(c, s, Advance(id));
    LogKept(s, s);
    RaiseKeeps(s.tables, p.name, mark);
    LogGrows(s, s'.tables);
    BatchIsCovered(c, s, p);
    CoverageSurvives(c, s, s', p.name, mark);
    FeedSurvives(c, s, s');
  }

  /** The pass that moved is covered up to where it says, and its batch is still a scan. */
  lemma OwnPass<B>(c: Config, s: System<B>, e: Event<B>)
    requires Inv(c, s) && Enabled(c, s, e) && (e.Begin? || e.Scan? || e.Reconcile?)
    ensures PassOk(c, Next(c, s, e), Next(c, s, e).passes[e.id])
  {
    hide MaxRevision, Evolves, Consistent, Covered, IsScan;
    var s' := Next(c, s, e);
    LogKept(s, s');
    if e.Begin? {
      StaleWatermark(c, s, e.at, e.name);
      CoverageSurvives(c, s, s', e.name, Watermark(s.log[e.at], e.name));
    } else {
      CoverageSurvives(c, s, s', s.passes[e.id].name, s.passes[e.id].mark);
    }
  }

  lemma LocalStep<B>(c: Config, s: System<B>, e: Event<B>)
    requires Inv(c, s) && Enabled(c, s, e)
    requires e.Begin? || e.Scan? || e.Reconcile? || e.End?
    ensures Inv(c, Next(c, s, e))
  {
    hide MaxRevision, Evolves, Consistent, Covered, PassOk, Ordered;
    var s' := Next(c, s, e);
    LogKept(s, s');
    if !e.End? { OwnPass(c, s, e); }
    FeedSurvives(c, s, s');
  }

  lemma ClientStep<B>(c: Config, s: System<B>, e: Event<B>)
    requires Inv(c, s) && Enabled(c, s, e)
    requires e.Ask? || e.Drop? || e.Acquire?
    ensures Inv(c, Next(c, s, e))
  {
    hide MaxRevision, Evolves, Consistent, Covered, PassOk, Txn;
    var s' := Next(c, s, e);
    LogKept(s, s');
    FeedSurvives(c, s, s');
  }

  lemma InvStep<B>(c: Config, s: System<B>, e: Event<B>)
    requires Inv(c, s) && Enabled(c, s, e)
    ensures Inv(c, Next(c, s, e))
  {
    match e
    case Commit(id) => CommitStep(c, s, id);
    case Advance(id) => AdvanceStep(c, s, id);
    case Begin(_, _, _) => LocalStep(c, s, e);
    case Scan(_, _, _) => LocalStep(c, s, e);
    case Reconcile(_) => LocalStep(c, s, e);
    case End(_) => LocalStep(c, s, e);
    case Ask(_, _) => ClientStep(c, s, e);
    case Drop(_) => ClientStep(c, s, e);
    case Acquire(_) => ClientStep(c, s, e);
  }

  // --------------------------------------------------------------------------
  // The theorems, over every run
  // --------------------------------------------------------------------------

  lemma {:induction false} RunKeepsInv<B>(c: Config, run: seq<System<B>>, events: seq<Event<B>>, n: nat)
    requires IsRun(c, run, events) && n < |run|
    ensures Inv(c, run[n])
  {
    if n == 0 {
      var t := EmptyTables<B>();
      assert Evolves(t, t) && Consistent(t);
    } else {
      RunKeepsInv(c, run, events, n - 1);
      InvStep(c, run[n - 1], events[n - 1]);
    }
  }

  /**
   No change is ever missed. In every reachable state, each row of a watched kind at or
   below a controller's durable watermark has been reconciled by that controller at
   exactly the revision it now holds.
   */
  lemma NothingMissed<B>(c: Config, run: seq<System<B>>, events: seq<Event<B>>, n: nat, name: string, k: Key)
    requires IsRun(c, run, events) && n < |run|
    requires k in run[n].tables.rows && (ControllerOf(c, name).kinds == [] || k.kind in ControllerOf(c, name).kinds)
    requires run[n].tables.rows[k].revision <= Watermark(run[n].tables, name)
    ensures (name, k, run[n].tables.rows[k].revision) in run[n].reconciled
  {
    RunKeepsInv(c, run, events, n);
    assert Covered(c, run[n], name, Watermark(run[n].tables, name));
  }

  /**
   Revision order is commit order. In every reachable state the outbox is exactly
   1..MAX, each row holds the largest outbox revision of its key, no two rows share a
   revision; and against any earlier committed state, what was written since is above
   that state's MAX and what was recorded then is still recorded.
   */
  lemma RevisionOrderIsCommitOrder<B>(c: Config, run: seq<System<B>>, events: seq<Event<B>>, n: nat, i: nat, j: nat)
    requires IsRun(c, run, events) && n < |run| && i <= j < |run[n].log|
    ensures Consistent(run[n].log[j]) && Evolves(run[n].log[i], run[n].log[j])
    ensures forall k, l :: k in run[n].log[j].rows && l in run[n].log[j].rows && k != l ==>
                             run[n].log[j].rows[k].revision != run[n].log[j].rows[l].revision
  {
    hide MaxRevision;
    RunKeepsInv(c, run, events, n);
    LogPairs(c, run, events, n, i, j);
    forall k, l | k in run[n].log[j].rows && l in run[n].log[j].rows && k != l
      ensures run[n].log[j].rows[k].revision != run[n].log[j].rows[l].revision
    {
      if run[n].log[j].rows[k].revision == run[n].log[j].rows[l].revision { RevisionsDistinct(run[n].log[j], k, l); }
    }
  }

  lemma {:induction false} LogPairs<B>(c: Config, run: seq<System<B>>, events: seq<Event<B>>, n: nat, i: nat, j: nat)
    requires IsRun(c, run, events) && n < |run| && i <= j < |run[n].log|
    ensures Evolves(run[n].log[i], run[n].log[j])
  {
    hide MaxRevision, Evolves, Consistent, FeedOk, Next, Enabled;
    RunKeepsInv(c, run, events, n);
    if j < |run[n].log| - 1 && n > 0 {
      assert Enabled(c, run[n - 1], events[n - 1]);
      LogStep(c, run[n - 1], events[n - 1]);
      LogPairs(c, run, events, n - 1, i, j);
    }
  }

  /** A step commits nothing, or appends one state. */
  lemma LogStep<B>(c: Config, s: System<B>, e: Event<B>)
    requires Enabled(c, s, e)
    ensures Next(c, s, e).log == s.log || Next(c, s, e).log == s.log + [Next(c, s, e).tables]
  {
    hide MaxRevision, Txn;
  }

  /**
   Fencing, downwards: a transaction whose token has fallen below its row's mark, even
   if the mark rose after the writer's read, changes nothing and commits nothing.
   */
  lemma ZombieChangesNothing<B>(c: Config, run: seq<System<B>>, events: seq<Event<B>>, n: nat, id: nat)
    requires IsRun(c, run, events) && n < |events| && events[n] == Commit(id)
    requires var w := run[n].writers[id]; w.key in run[n].tables.rows && w.fence < run[n].tables.rows[w.key].fence
    ensures run[n + 1].tables == run[n].tables && run[n + 1].log == run[n].log
  {
    RunKeepsInv(c, run, events, n);
    assert Consistent(run[n].log[|run[n].log| - 1]);
    TxnAbortsIffFenced(run[n].tables, run[n].writers[id]);
  }

  // --------------------------------------------------------------------------
  // What a row keeps, over every run
  // --------------------------------------------------------------------------

  predicate CommitsStatus<B>(s: System<B>, e: Event<B>, key: Key) {
    e.Commit? && e.id in s.writers && s.writers[e.id].StatusRow? && s.writers[e.id].key == key
  }

  lemma TxnKeepsStatus<B>(t: Tables<B>, w: Write<B>, key: Key)
    requires Consistent(t) && Txn(t, w).Some? && key in t.rows && !(w.StatusRow? && w.key == key)
    ensures key in Txn(t, w).value.rows && Txn(t, w).value.rows[key].status == t.rows[key].status
  {
    hide MaxRevision;
    TxnKeeps(t, w);
    if Lands(t, w) {
      RowLands(t, w);
      TxnLands(t, w);
    }
  }

  lemma StepKeepsStatus<B>(c: Config, s: System<B>, e: Event<B>, key: Key)
    requires Inv(c, s) && Enabled(c, s, e) && key in s.tables.rows && !CommitsStatus(s, e, key)
    ensures key in Next(c, s, e).tables.rows && Next(c, s, e).tables.rows[key].status == s.tables.rows[key].status
  {
    hide MaxRevision, Txn, FeedOk, Evolves, Consistent, Decide, IsScan;
    LogKept(s, s);
    if e.Commit? && Txn(s.tables, s.writers[e.id]).Some? { TxnKeepsStatus(s.tables, s.writers[e.id], key); }
  }

  /** Admissions and retractions, however they interleave, never touch a status. */
  lemma {:induction false} StatusOnlyByStatusWrites<B>(
      c: Config, run: seq<System<B>>, events: seq<Event<B>>, i: nat, j: nat, key: Key)
    requires IsRun(c, run, events) && i <= j < |run| && key in run[i].tables.rows
    requires forall n :: i <= n < j ==> !CommitsStatus(run[n], events[n], key)
    ensures key in run[j].tables.rows && run[j].tables.rows[key].status == run[i].tables.rows[key].status
    decreases j
  {
    hide Inv, Enabled, Next, CommitsStatus;
    if i < j {
      StatusOnlyByStatusWrites(c, run, events, i, j - 1, key);
      RunKeepsInv(c, run, events, j - 1);
      assert Enabled(c, run[j - 1], events[j - 1]) && !CommitsStatus(run[j - 1], events[j - 1], key);
      StepKeepsStatus(c, run[j - 1], events[j - 1], key);
    }
  }

  /** A mark only rises, so a token once below it stays refused. */
  lemma RefusedForGood<B>(
      c: Config, run: seq<System<B>>, events: seq<Event<B>>, i: nat, j: nat, key: Key, fence: int, now: string, body: B)
    requires IsRun(c, run, events) && i <= j < |run|
    requires key in run[i].tables.rows && run[i].tables.rows[key].fence > fence
    ensures Decide(Admit(key, fence, now, body), ReadRow(run[j].tables, key)).Superseded?
    ensures forall w: Write<B> :: w.key == key && w.fence == fence ==> Txn(run[j].tables, w).None?
  {
    hide MaxRevision, Txn, FeedOk, Consistent;
    TablesEvolve(c, run, events, i, j);
    RunKeepsInv(c, run, events, j);
    LogKept(run[j], run[j]);
    forall w: Write<B> | w.key == key && w.fence == fence ensures Txn(run[j].tables, w).None? {
      TxnAbortsIffFenced(run[j].tables, w);
    }
  }

  lemma StepEvolves<B>(c: Config, s: System<B>, e: Event<B>)
    requires Inv(c, s) && Enabled(c, s, e)
    ensures Evolves(s.tables, Next(c, s, e).tables)
  {
    hide MaxRevision, Txn, FeedOk, Consistent, Evolves, Next, Enabled;
    InvStep(c, s, e);
    LogStep(c, s, e);
    var s' := Next(c, s, e);
    LogAt(s', |s.log| - 1);
  }

  lemma {:induction false} TablesEvolve<B>(c: Config, run: seq<System<B>>, events: seq<Event<B>>, i: nat, j: nat)
    requires IsRun(c, run, events) && i <= j < |run|
    ensures Evolves(run[i].tables, run[j].tables)
    decreases j
  {
    hide MaxRevision, Inv, Evolves, Next, Enabled;
    EvolvesSame(run[i].tables);
    if i < j {
      TablesEvolve(c, run, events, i, j - 1);
      RunKeepsInv(c, run, events, j - 1);
      assert Enabled(c, run[j - 1], events[j - 1]);
      StepEvolves(c, run[j - 1], events[j - 1]);
      EvolvesTransitive(run[i].tables, run[j - 1].tables, run[j].tables);
    }
  }

  // --------------------------------------------------------------------------
  // What the outbox says of a row, over every run
  // --------------------------------------------------------------------------

  predicate Mentions<B>(e: Event<B>, id: nat) { (e.Ask? || e.Commit? || e.Drop?) && e.id == id }

  lemma WriterStays<B>(c: Config, s: System<B>, e: Event<B>, id: nat)
    requires Enabled(c, s, e) && !Mentions(e, id)
    ensures id in Next(c, s, e).writers <==> id in s.writers
    ensures id in s.writers ==> Next(c, s, e).writers[id] == s.writers[id]
  {
    hide MaxRevision, Txn, Decide, IsScan, RaiseWatermark, Watermark;
  }

  lemma {:induction false} WriterWaits<B>(
      c: Config, run: seq<System<B>>, events: seq<Event<B>>, i: nat, j: nat, id: nat)
    requires IsRun(c, run, events) && i <= j < |run|
    requires forall n :: i <= n < j ==> !Mentions(events[n], id)
    ensures id in run[j].writers <==> id in run[i].writers
    ensures id in run[j].writers ==> run[j].writers[id] == run[i].writers[id]
    decreases j
  {
    hide Enabled, Next, Mentions;
    if i < j {
      WriterWaits(c, run, events, i, j - 1, id);
      assert Enabled(c, run[j - 1], events[j - 1]) && !Mentions(events[j - 1], id);
      WriterStays(c, run[j - 1], events[j - 1], id);
    }
  }

  lemma DecidedVerb<B>(req: Request<B>, t: Tables<B>)
    requires Decide(req, ReadRow(t, req.key)).Proceed?
    ensures var w := Decide(req, ReadRow(t, req.key)).write;
            && w.key == req.key && w.now == req.now && (req.Admit? || Get(t, req.key).Some?)
            && (OutboxOp(w) == Created <==> req.Admit? && Get(t, req.key).None?)
            && (OutboxOp(w) == Updated <==> !req.Retract? && Get(t, req.key).Some?)
            && (OutboxOp(w) == Deleted <==> req.Retract?)
  {}

  /**
   The verb speaks of what the writer saw. Whatever others commit between a request and
   its transaction, the entry it adds is about its own row, says `created` exactly when
   an admission saw no live row, `updated` exactly when an admission or a status write
   saw one, and `deleted` exactly for a retraction.
   */
  lemma VerbIsWhatWasSeen<B>(
      c: Config, run: seq<System<B>>, events: seq<Event<B>>, i: nat, j: nat, id: nat, req: Request<B>)
    requires IsRun(c, run, events) && i < j < |events| && events[i] == Ask(id, req) && events[j] == Commit(id)
    requires forall n :: i < n < j ==> !Mentions(events[n], id)
    ensures run[j + 1].tables == run[j].tables
            || var r := MaxRevision(run[j].tables.rows) + 1;
               var outbox := run[j + 1].tables.outbox;
               && r in outbox && outbox == run[j].tables.outbox[r := outbox[r]]
               && outbox[r].key == req.key && outbox[r].at == req.now
               && (outbox[r].op == Created <==> req.Admit? && Get(run[i].tables, req.key).None?)
               && (outbox[r].op == Updated <==> !req.Retract? && Get(run[i].tables, req.key).Some?)
               && (outbox[r].op == Deleted <==> req.Retract?)
  {
    hide MaxRevision, Txn, WriteRow, FeedOk, Decide, Consistent, Evolves, Lands;
    assert Enabled(c, run[i], events[i]) && Enabled(c, run[j], events[j]);
    WriterWaits(c, run, events, i + 1, j, id);
    DecidedVerb(req, run[i].tables);
    RunKeepsInv(c, run, events, j);
    LogKept(run[j], run[j]);
    GaplessOf(run[j].tables);
    var t, w := run[j].tables, run[j].writers[id];
    if Txn(t, w).Some? {
      TxnKeeps(t, w);
      if Lands(t, w) { TxnLands(t, w); }
    }
  }

  /** Every entry has a `created` one for its row at or before it. */
  ghost predicate Begun<B>(t: Tables<B>, r: nat)
    requires r in t.outbox
  {
    exists q :: q in t.outbox && q <= r && t.outbox[q].key == t.outbox[r].key && t.outbox[q].op == Created
  }

  ghost predicate LivesBegin<B>(s: System<B>) {
    && (forall r :: r in s.tables.outbox ==> Begun(s.tables, r))
    && (forall id :: id in s.writers ==> OutboxOp(s.writers[id]) == Created || s.writers[id].key in s.tables.rows)
  }

  lemma BegunStays<B>(a: Tables<B>, b: Tables<B>, r: nat)
    requires Evolves(a, b) && r in a.outbox && Begun(a, r)
    ensures Begun(b, r)
  {
    hide MaxRevision;
    var q :| q in a.outbox && q <= r && a.outbox[q].key == a.outbox[r].key && a.outbox[q].op == Created;
    assert q in b.outbox && b.outbox[q] == a.outbox[q];
  }

  /** A row that is there was created at or before its present revision. */
  lemma RowBegins<B>(t: Tables<B>, k: Key) returns (q: nat)
    requires Consistent(t) && k in t.rows && forall r :: r in t.outbox ==> Begun(t, r)
    ensures q in t.outbox && q <= MaxRevision(t.rows) && t.outbox[q].key == k && t.outbox[q].op == Created
  {
    hide MaxRevision, Gapless;
    assert RowRecorded(t, k);
    EntryBelow(t, t.rows[k].revision);
    assert Begun(t, t.rows[k].revision);
    q :| q in t.outbox && q <= t.rows[k].revision && t.outbox[q].key == k && t.outbox[q].op == Created;
  }

  lemma BegunBy<B>(t: Tables<B>, q: nat, r: nat)
    requires r in t.outbox && q in t.outbox && q <= r && t.outbox[q].key == t.outbox[r].key && t.outbox[q].op == Created
    ensures Begun(t, r)
  {}

  lemma EntryBegins<B>(s: System<B>, w: Write<B>)
    requires Consistent(s.tables) && LivesBegin(s) && Lands(s.tables, w)
    requires OutboxOp(w) == Created || w.key in s.tables.rows
    ensures var t, r := Txn(s.tables, w), MaxRevision(s.tables.rows) + 1; t.Some? && r in t.value.outbox && Begun(t.value, r)
  {
    hide MaxRevision, WriteRow, Consistent, Lands, Gapless, Landed, OutboxOp, Txn, Begun;
    GaplessOf(s.tables);
    TxnLands(s.tables, w);
    var r := MaxRevision(s.tables.rows) + 1;
    var q := r;
    if OutboxOp(w) != Created { q := RowBegins(s.tables, w.key); }
    BegunBy(Txn(s.tables, w).value, q, r);
  }

  lemma CommitBegins<B>(c: Config, s: System<B>, id: nat)
    requires Inv(c, s) && LivesBegin(s) && id in s.writers
    ensures forall r :: r in Next(c, s, Commit(id)).tables.outbox ==> Begun(Next(c, s, Commit(id)).tables, r)
  {
    hide MaxRevision, Txn, WriteRow, FeedOk, Consistent, Evolves, Begun, Lands;
    var t, w := s.tables, s.writers[id];
    var t' := Next(c, s, Commit(id)).tables;
    LogKept(s, s);
    if Txn(t, w).Some? {
      TxnKeeps(t, w);
      if Lands(t, w) {
        GaplessOf(t);
        EntryBegins(s, w);
        TxnLands(t, w);
      }
      forall r | r in t'.outbox ensures Begun(t', r) {
        if r in t.outbox { BegunStays(t, t', r); }
      }
    }
  }

  lemma BeginsStep<B>(c: Config, s: System<B>, e: Event<B>)
    requires Inv(c, s) && LivesBegin(s) && Enabled(c, s, e)
    ensures LivesBegin(Next(c, s, e))
  {
    hide MaxRevision, Txn, FeedOk, IsScan, Evolves, Consistent, Decide, Begun;
    var s' := Next(c, s, e);
    StepEvolves(c, s, e);
    RowsOnlyGrow(s.tables, s'.tables);
    match e
    case Commit(id) => CommitBegins(c, s, id);
    case Ask(_, req) =>
      if Decide(req, ReadRow(s.tables, req.key)).Proceed? { DecidedVerb(req, s.tables); }
    case Advance(_) => forall r | r in s'.tables.outbox ensures Begun(s'.tables, r) { BegunStays(s.tables, s'.tables, r); }
    case _ =>
  }

  lemma RowsOnlyGrow<B>(a: Tables<B>, b: Tables<B>)
    requires Evolves(a, b)
    ensures forall k :: k in a.rows ==> k in b.rows
  {}

  lemma {:induction false} RunBegins<B>(c: Config, run: seq<System<B>>, events: seq<Event<B>>, n: nat)
    requires IsRun(c, run, events) && n < |run|
    ensures LivesBegin(run[n])
  {
    hide MaxRevision, Inv, Next, Enabled, Begun;
    if n > 0 {
      RunBegins(c, run, events, n - 1);
      RunKeepsInv(c, run, events, n - 1);
      assert Enabled(c, run[n - 1], events[n - 1]);
      BeginsStep(c, run[n - 1], events[n - 1]);
    }
  }

  ghost predicate FirstFor<B>(t: Tables<B>, q: nat, k: Key) {
    q in t.outbox && t.outbox[q].key == k && forall r :: r in t.outbox && t.outbox[r].key == k ==> q <= r
  }

  /** However writers race, the first the feed says of any row is that it was created. */
  lemma FirstEntryIsCreated<B>(c: Config, run: seq<System<B>>, events: seq<Event<B>>, n: nat, q: nat, k: Key)
    requires IsRun(c, run, events) && n < |run| && FirstFor(run[n].tables, q, k)
    ensures run[n].tables.outbox[q].op == Created
  {
    hide MaxRevision;
    RunBegins(c, run, events, n);
    assert Begun(run[n].tables, q);
  }

  // --------------------------------------------------------------------------
  // Fencing, upwards: for clients that send back only what they read
  // --------------------------------------------------------------------------

  predicate Echoes<B>(t: Tables<B>, req: Request<B>) { req.key in t.rows && req.fence == t.rows[req.key].fence }

  /**
   A default fence, the mark some replica showed for this very row, or a token of the
   lease guarding its kind. Nothing enforces it: a client may send any number.
   */
  ghost predicate Honest<B>(c: Config, s: System<B>, req: Request<B>) {
    || req.fence <= Issued(s, LeaseOf(c, req.key.kind))
    || exists i :: 0 <= i < |s.log| && Echoes(s.log[i], req)
  }

  ghost predicate HonestUntil<B>(c: Config, run: seq<System<B>>, events: seq<Event<B>>, n: nat) {
    n <= |events| <= |run| && forall i :: 0 <= i < n && events[i].Ask? ==> Honest(c, run[i], events[i].req)
  }

  ghost predicate RowFencesOk<B>(c: Config, s: System<B>) {
    forall k :: k in s.tables.rows ==> s.tables.rows[k].fence <= Issued(s, LeaseOf(c, k.kind))
  }

  ghost predicate WriterFencesOk<B>(c: Config, s: System<B>) {
    forall id :: id in s.writers ==> s.writers[id].fence <= Issued(s, LeaseOf(c, s.writers[id].key.kind))
  }

  /** No mark on a row or in a writer's hands is above the newest token. */
  ghost predicate FencesOk<B>(c: Config, s: System<B>) { RowFencesOk(c, s) && WriterFencesOk(c, s) }

  lemma TxnFences<B>(t: Tables<B>, w: Write<B>)
    requires Txn(t, w).Some?
    ensures forall k :: k in Txn(t, w).value.rows ==>
                          || (k in t.rows && Txn(t, w).value.rows[k].fence == t.rows[k].fence)
                          || (k == w.key && Txn(t, w).value.rows[k].fence == w.fence)
  {
    hide MaxRevision;
  }

  lemma FencesAfterTxn<B>(c: Config, s: System<B>, id: nat)
    requires FencesOk(c, s) && id in s.writers
    ensures FencesOk(c, Next(c, s, Commit(id)))
  {
    hide MaxRevision, Txn;
    if Txn(s.tables, s.writers[id]).Some? { TxnFences(s.tables, s.writers[id]); }
  }

  /** An honest request's fence is within the tokens issued. */
  lemma HonestIsIssued<B>(c: Config, s: System<B>, req: Request<B>)
    requires LogOk(s) && RowFencesOk(c, s) && Honest(c, s, req)
    ensures req.fence <= Issued(s, LeaseOf(c, req.key.kind))
  {
    hide MaxRevision, Consistent;
    if i :| 0 <= i < |s.log| && Echoes(s.log[i], req) { assert Evolves(s.log[i], s.tables); }
  }

  lemma DecidedWrite<B>(req: Request<B>, existing: Option<Row<B>>)
    ensures match Decide(req, existing) case Proceed(w) => w.fence == req.fence && w.key == req.key case _ => true
  {}

  lemma FencesStep<B>(c: Config, s: System<B>, e: Event<B>)
    requires Inv(c, s) && FencesOk(c, s) && Enabled(c, s, e) && (e.Ask? ==> Honest(c, s, e.req))
    ensures FencesOk(c, Next(c, s, e))
  {
    hide MaxRevision, Txn, Consistent, Evolves, FeedOk, IsScan, Honest, Decide;
    match e
    case Commit(id) => FencesAfterTxn(c, s, id);
    case Ask(_, req) =>
      HonestIsIssued(c, s, req);
      DecidedWrite(req, ReadRow(s.tables, req.key));
    case _ =>
  }

  lemma {:induction false} RunFences<B>(c: Config, run: seq<System<B>>, events: seq<Event<B>>, n: nat)
    requires IsRun(c, run, events) && HonestUntil(c, run, events, n)
    ensures FencesOk(c, run[n])
  {
    hide MaxRevision, Inv, Next, Enabled, Honest;
    if n > 0 {
      RunFences(c, run, events, n - 1);
      RunKeepsInv(c, run, events, n - 1);
      assert Enabled(c, run[n - 1], events[n - 1]);
      FencesStep(c, run[n - 1], events[n - 1]);
    }
  }

  /**
   While every writer so far was honest, the newest token of the guarding lease is
   refused neither at the read nor inside the transaction.
   */
  lemma NewestTokenIsNeverRefused<B>(c: Config, run: seq<System<B>>, events: seq<Event<B>>, n: nat, req: Request<B>)
    requires IsRun(c, run, events) && HonestUntil(c, run, events, n)
    requires req.fence == Issued(run[n], LeaseOf(c, req.key.kind))
    ensures !Decide(req, ReadRow(run[n].tables, req.key)).Superseded?
    ensures forall w: Write<B> :: w.key == req.key && w.fence == req.fence ==> Txn(run[n].tables, w).Some?
  {
    hide MaxRevision, Txn, FeedOk, Next, Enabled;
    RunKeepsInv(c, run, events, n);
    RunFences(c, run, events, n);
    var s := run[n];
    assert Consistent(s.log[|s.log| - 1]);
    forall w: Write<B> | w.key == req.key && w.fence == req.fence ensures Txn(s.tables, w).Some? {
      TxnAbortsIffFenced(s.tables, w);
    }
  }

  /**
   Honesty is needed: one request carrying a number above every token is admitted, and
   the row it wrote refuses the newest token.
   */
  lemma ForgedFenceLocksOut<B>(c: Config, key: Key, body: B)
    returns (run: seq<System<B>>, events: seq<Event<B>>)
    ensures IsRun(c, run, events) && |events| == 2 && !HonestUntil(c, run, events, 2)
    ensures var s := run[2];
            var req := Admit(key, Issued(s, LeaseOf(c, key.kind)), "", body);
            Decide(req, ReadRow(s.tables, key)).Superseded?
  {
    hide MaxRevision;
    var forged := Admit(key, 1, "", body);
    var s0 := Init<B>();
    var s1 := Next(c, s0, Ask(0, forged));
    assert Enabled(c, s1, Commit(0));
    events := [Ask(0, forged), Commit(0)];
    run := [s0, s1, Next(c, s1, Commit(0))];
    assert !Honest(c, run[0], events[0].req);
  }
}
