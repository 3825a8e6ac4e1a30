/**
 The control plane's tables and the one transaction shape that changes them.

 A resource row and its outbox row are written by two statements submitted as a
 single raft operation. The global revision is `MAX(revision) + 1`, evaluated inside
 the first statement; the second copies whatever revision the row then holds into
 the outbox, whose primary key is that revision. A primary-key violation rolls the
 whole transaction back.

 Row bodies are a type parameter: the store only ever compares and copies them.
 */
module ControlTables {
  import opened Wrappers

  datatype Key = Key(kind: string, tenant: string, name: string)

  datatype Row<B> = Row(revision: nat, fence: int, spec: B, status: Option<B>,
                        deletedAt: Option<string>, createdAt: string, updatedAt: string)
  {
    predicate Live() { deletedAt.None? }
  }

  datatype Op = Created | Updated | Deleted

  datatype OutboxRow = OutboxRow(key: Key, op: Op, at: string)

  datatype Tables<B> = Tables(rows: map<Key, Row<B>>, outbox: map<nat, OutboxRow>, watermarks: map<string, nat>)

  function EmptyTables<B>(): Tables<B> { Tables(map[], map[], map[]) }

  // --------------------------------------------------------------------------
  // MAX(revision)
  // --------------------------------------------------------------------------

  ghost function AnyKey<B>(rows: map<Key, Row<B>>): (k: Key)
    requires rows != map[]
    ensures k in rows
  {
    var k :| k in rows; k
  }

  /** `COALESCE(MAX(revision), 0)` over the resource table. */
  ghost function MaxRevision<B>(rows: map<Key, Row<B>>): (m: nat)
    ensures forall k :: k in rows ==> rows[k].revision <= m
  {
    if rows == map[] then 0
    else
      var k := AnyKey(rows);
      var rest := MaxRevision(rows - {k});
      assert forall l :: l in rows ==> l == k || l in rows - {k};
      if rows[k].revision < rest then rest else rows[k].revision
  }

  lemma {:induction false} MaxAttained<B>(rows: map<Key, Row<B>>) returns (top: Key)
    requires rows != map[]
    ensures top in rows && rows[top].revision == MaxRevision(rows)
  {
    var k := AnyKey(rows);
    if rows[k].revision == MaxRevision(rows) { return k; }
    assert MaxRevision(rows) == MaxRevision(rows - {k});
    top := MaxAttained(rows - {k});
  }

  // --------------------------------------------------------------------------
  // The transaction, statement by statement
  // --------------------------------------------------------------------------

  /** What a client submits once its consistent read told it to go on. */
  datatype Write<B> =
    | AdmitRow(key: Key, fence: int, now: string, body: B, op: Op)
    | RetractRow(key: Key, fence: int, now: string)
    | StatusRow(key: Key, fence: int, now: string, body: B)

  function OutboxOp<B>(w: Write<B>): Op {
    match w
    case AdmitRow(_, _, _, _, op) => op
    case RetractRow(_, _, _) => Deleted
    case StatusRow(_, _, _, _) => Updated
  }

  /** The first statement: an upsert or an update, each guarded by `fence <= token`. */
  ghost function WriteRow<B>(rows: map<Key, Row<B>>, w: Write<B>): map<Key, Row<B>> {
    var next := MaxRevision(rows) + 1;
    if w.key !in rows then
      match w
      case AdmitRow(key, fence, now, body, _) => rows[key := Row(next, fence, body, None, None, now, now)]
      case _ => rows
    else
      var row := rows[w.key];
      if row.fence > w.fence then rows
      else
        var bumped := row.(revision := next, fence := w.fence, updatedAt := w.now);
        match w
        case AdmitRow(key, _, _, body, _) => rows[key := bumped.(spec := body, deletedAt := None)]
        case RetractRow(key, _, now) => rows[key := bumped.(deletedAt := Some(now))]
        case StatusRow(key, _, _, body) => rows[key := bumped.(status := Some(body))]
  }

  /** The second statement: `INSERT INTO outbox SELECT revision ... FROM resource`. */
  function InsertOutbox<B>(t: Tables<B>, key: Key, op: Op, at: string): Option<Tables<B>> {
    if key !in t.rows then Some(t)
    else
      var revision := t.rows[key].revision;
      if revision in t.outbox then None
      else Some(t.(outbox := t.outbox[revision := OutboxRow(key, op, at)]))
  }

  /** Both statements as one raft operation; `None` is the primary-key violation. */
  ghost function Txn<B>(t: Tables<B>, w: Write<B>): Option<Tables<B>> {
    InsertOutbox(t.(rows := WriteRow(t.rows, w)), w.key, OutboxOp(w), w.now)
  }

  /** `INSERT ... ON CONFLICT DO UPDATE ... WHERE watermark < excluded`. */
  function RaiseWatermark<B>(t: Tables<B>, name: string, revision: nat): Tables<B> {
    if name in t.watermarks && t.watermarks[name] >= revision then t
    else t.(watermarks := t.watermarks[name := revision])
  }

  function Watermark<B>(t: Tables<B>, name: string): nat {
    if name in t.watermarks then t.watermarks[name] else 0
  }

  // --------------------------------------------------------------------------
  // What every transaction keeps
  // --------------------------------------------------------------------------

  /**
   The outbox is gapless from 1 to `MAX(revision)`, and the two tables describe each
   other: a row's revision is the largest outbox revision recorded for its key.
   */
  ghost predicate Consistent<B>(t: Tables<B>) {
    && Gapless(t)
    && (forall k :: k in t.rows ==> RowRecorded(t, k))
    && (forall r :: r in t.outbox ==> EntryCurrent(t, r))
  }

  ghost predicate Gapless<B>(t: Tables<B>) {
    forall r: nat :: r in t.outbox <==> 1 <= r <= MaxRevision(t.rows)
  }

  ghost predicate RowRecorded<B>(t: Tables<B>, k: Key)
    requires k in t.rows
  {
    t.rows[k].revision in t.outbox && t.outbox[t.rows[k].revision].key == k
  }

  ghost predicate EntryCurrent<B>(t: Tables<B>, r: nat)
    requires r in t.outbox
  {
    t.outbox[r].key in t.rows && r <= t.rows[t.outbox[r].key].revision
  }

  /** `b` is a later committed state than `a`. */
  ghost predicate Evolves<B>(a: Tables<B>, b: Tables<B>) {
    && MaxRevision(a.rows) <= MaxRevision(b.rows)
    && (forall k :: k in a.rows ==> k in b.rows && a.rows[k].fence <= b.rows[k].fence)
    && (forall k :: k in b.rows ==> KeptOrNewer(a, b, k))
    && (forall r :: r in a.outbox ==> r in b.outbox && a.outbox[r] == b.outbox[r])
    && (forall r :: r in b.outbox ==> r in a.outbox || r > MaxRevision(a.rows))
    && (forall n :: n in a.watermarks ==> n in b.watermarks && a.watermarks[n] <= b.watermarks[n])
  }

  ghost predicate KeptOrNewer<B>(a: Tables<B>, b: Tables<B>, k: Key)
    requires k in b.rows
  {
    (k in a.rows && a.rows[k] == b.rows[k]) || b.rows[k].revision > MaxRevision(a.rows)
  }

  lemma EvolvesTransitive<B>(a: Tables<B>, b: Tables<B>, c: Tables<B>)
    requires Evolves(a, b) && Evolves(b, c)
    ensures Evolves(a, c)
  {
    forall k | k in c.rows ensures KeptOrNewer(a, c, k) {
      assert KeptOrNewer(b, c, k);
      if k in b.rows { assert KeptOrNewer(a, b, k); }
    }
  }

  lemma GaplessOf<B>(t: Tables<B>)
    requires Consistent(t)
    ensures Gapless(t)
  {}

  lemma EvolvesSame<B>(t: Tables<B>)
    ensures Evolves(t, t)
  {
    hide MaxRevision;
  }

  /** No two resources hold the same revision. */
  lemma RevisionsDistinct<B>(t: Tables<B>, k: Key, l: Key)
    requires Consistent(t) && k in t.rows && l in t.rows
    requires t.rows[k].revision == t.rows[l].revision
    ensures k == l
  {
    assert RowRecorded(t, k) && RowRecorded(t, l);
  }

  /**
   Fencing, decided inside the transaction. A token below the row's mark aborts the
   whole transaction: the skipped row write leaves the row at a revision the outbox
   already holds, so the copying insert collides. Nothing else aborts.
   */
  lemma TxnAbortsIffFenced<B>(t: Tables<B>, w: Write<B>)
    requires Consistent(t)
    ensures Txn(t, w).None? <==> w.key in t.rows && t.rows[w.key].fence > w.fence
  {
    if w.key in t.rows && t.rows[w.key].fence > w.fence {
      assert t.(rows := WriteRow(t.rows, w)) == t;
      assert RowRecorded(t, w.key);
    }
  }

  /** An update of a key that has no row commits, and changes nothing. */
  lemma TxnWithoutRow<B>(t: Tables<B>, w: Write<B>)
    requires w.key !in t.rows && !w.AdmitRow?
    ensures Txn(t, w) == Some(t)
  {
    assert t.(rows := WriteRow(t.rows, w)) == t;
  }

  /** Whether `w` reaches a row at all: it creates one, or finds one it may overwrite. */
  predicate Lands<B>(t: Tables<B>, w: Write<B>) {
    if w.key in t.rows then t.rows[w.key].fence <= w.fence else w.AdmitRow?
  }

  /**
   The row statement of a landing write: exactly one row changes, it takes the
   revision after the current maximum, and each kind of write touches only its own
   columns. In particular an admission never writes `status`, a status write never
   writes `spec` or the tombstone, and only an admission clears the tombstone.
   */
  lemma RowLands<B>(t: Tables<B>, w: Write<B>)
    requires Lands(t, w)
    ensures var rows := WriteRow(t.rows, w);
            && rows.Keys == t.rows.Keys + {w.key}
            && (forall k :: k in t.rows && k != w.key ==> rows[k] == t.rows[k])
            && MaxRevision(rows) == MaxRevision(t.rows) + 1
    ensures var row := WriteRow(t.rows, w)[w.key];
            && row.revision == MaxRevision(t.rows) + 1
            && row.fence == w.fence
            && row.updatedAt == w.now
            && (w.AdmitRow? ==> row.spec == w.body && row.Live())
            && (w.RetractRow? ==> row.deletedAt == Some(w.now))
            && (w.StatusRow? ==> row.status == Some(w.body))
            && (w.key !in t.rows ==> row.status.None? && row.createdAt == w.now)
            && (w.key in t.rows ==>
              var was := t.rows[w.key];
              && row.createdAt == was.createdAt
              && (!w.AdmitRow? ==> row.spec == was.spec)
              && (!w.StatusRow? ==> row.status == was.status)
              && (w.StatusRow? ==> row.deletedAt == was.deletedAt))
  {
    var rows := WriteRow(t.rows, w);
    assert rows[w.key].revision == MaxRevision(t.rows) + 1;
    var top := MaxAttained(rows);
    if top != w.key { assert false; }
  }

  /** The whole transaction of a landing write: that row, and one outbox entry for it. */
  lemma TxnLands<B>(t: Tables<B>, w: Write<B>)
    requires Gapless(t) && Lands(t, w)
    ensures Txn(t, w) == Some(Tables(WriteRow(t.rows, w),
                                     t.outbox[MaxRevision(t.rows) + 1 := OutboxRow(w.key, OutboxOp(w), w.now)],
                                     t.watermarks))
    ensures Landed(t, Txn(t, w).value, w.key)
  {
    hide MaxRevision, WriteRow;
    RowLands(t, w);
    var rows := WriteRow(t.rows, w);
    assert rows[w.key].revision !in t.outbox;
  }

  /** `t'` is `t` with one row moved to the next revision and one outbox entry for it. */
  ghost predicate Landed<B>(t: Tables<B>, t': Tables<B>, key: Key) {
    var next := MaxRevision(t.rows) + 1;
    && key in t'.rows
    && (forall k :: k in t'.rows && k != key ==> k in t.rows)
    && (forall k :: k in t.rows && k != key ==> k in t'.rows && t'.rows[k] == t.rows[k])
    && t'.rows[key].revision == next == MaxRevision(t'.rows)
    && (key in t.rows ==> t.rows[key].fence <= t'.rows[key].fence)
    && next in t'.outbox && t'.outbox[next].key == key
    && (forall r :: r in t'.outbox && r != next ==> r in t.outbox)
    && (forall r :: r in t.outbox && r != next ==> r in t'.outbox && t'.outbox[r] == t.outbox[r])
    && t'.watermarks == t.watermarks
  }

  lemma LandedGapless<B>(t: Tables<B>, t': Tables<B>, key: Key)
    requires Gapless(t) && Landed(t, t', key)
    ensures Gapless(t')
  {
    hide MaxRevision;
  }

  lemma LandedRow<B>(t: Tables<B>, t': Tables<B>, key: Key, k: Key)
    requires Consistent(t) && Landed(t, t', key) && k in t'.rows
    ensures RowRecorded(t', k)
  {
    hide MaxRevision, Gapless;
    if k != key {
      assert RowRecorded(t, k);
      EntryBelow(t, t.rows[k].revision);
    }
  }

  lemma LandedEntry<B>(t: Tables<B>, t': Tables<B>, key: Key, r: nat)
    requires Consistent(t) && Landed(t, t', key) && r in t'.outbox
    ensures EntryCurrent(t', r)
  {
    hide MaxRevision, Gapless;
    if r in t.outbox {
      assert EntryCurrent(t, r);
      EntryBelow(t, r);
    }
  }

  lemma LandedConsistent<B>(t: Tables<B>, t': Tables<B>, key: Key)
    requires Consistent(t) && Landed(t, t', key)
    ensures Consistent(t')
  {
    hide MaxRevision, Gapless, Landed, RowRecorded, EntryCurrent;
    LandedGapless(t, t', key);
    forall k | k in t'.rows ensures RowRecorded(t', k) { LandedRow(t, t', key, k); }
    forall r | r in t'.outbox ensures EntryCurrent(t', r) { LandedEntry(t, t', key, r); }
  }

  lemma EntryBelow<B>(t: Tables<B>, r: nat)
    requires Consistent(t) && r in t.outbox
    ensures 1 <= r <= MaxRevision(t.rows)
  {
    hide MaxRevision;
  }

  lemma LandedEvolves<B>(t: Tables<B>, t': Tables<B>, key: Key)
    requires Gapless(t) && Landed(t, t', key)
    ensures Evolves(t, t')
  {
    hide MaxRevision;
  }

  /** Every transaction that commits leaves a consistent later state; only a landing one changes it. */
  lemma TxnKeeps<B>(t: Tables<B>, w: Write<B>)
    requires Consistent(t) && Txn(t, w).Some?
    ensures Consistent(Txn(t, w).value) && Evolves(t, Txn(t, w).value)
    ensures !Lands(t, w) ==> Txn(t, w).value == t
  {
    TxnAbortsIffFenced(t, w);
    if Lands(t, w) {
      TxnLands(t, w);
      LandedConsistent(t, Txn(t, w).value, w.key);
      LandedEvolves(t, Txn(t, w).value, w.key);
    } else {
      TxnWithoutRow(t, w);
    }
  }

  /** A watermark write touches one watermark, never lowers it, and leaves the other tables alone. */
  lemma RaiseKeeps<B>(t: Tables<B>, name: string, revision: nat)
    requires Consistent(t)
    ensures var t' := RaiseWatermark(t, name, revision);
            && Consistent(t') && Evolves(t, t') && t'.rows == t.rows
            && Watermark(t', name) == (if Watermark(t, name) < revision then revision else Watermark(t, name))
            && (forall n :: n != name ==> Watermark(t', n) == Watermark(t, n))
  {
    hide MaxRevision;
    var t' := RaiseWatermark(t, name, revision);
    forall k | k in t'.rows ensures RowRecorded(t', k) { assert RowRecorded(t, k); }
    forall r | r in t'.outbox ensures EntryCurrent(t', r) { assert EntryCurrent(t, r); }
  }

  /**
   The outbox verb says `deleted` exactly when the row is left a tombstone, for every
   admission and every retraction. A status write is the exception: its statement has
   no tombstone predicate, so it agrees if and only if the row is live at commit,
   which the read that preceded it does not guarantee.
   */
  lemma VerbAgreesWithTombstone<B>(t: Tables<B>, w: Write<B>)
    requires Consistent(t) && Lands(t, w)
    requires w.AdmitRow? ==> w.op != Deleted
    ensures var t' := Txn(t, w).value;
            (t'.outbox[t'.rows[w.key].revision].op == Deleted <==> !t'.rows[w.key].Live())
            <==> (w.StatusRow? ==> t.rows[w.key].Live())
  {
    RowLands(t, w);
    TxnLands(t, w);
  }
}
