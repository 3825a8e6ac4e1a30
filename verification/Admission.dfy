/**
 Admission's first half: the consistent read and what it decides.

 A request reads its row, then either ends there (refused, nothing to change, nothing
 there) or submits one transaction. Other writers may commit between the two halves.
 */
module Admission {
  import opened Wrappers
  import opened ControlTables

  datatype Request<B> =
    | Admit(key: Key, fence: int, now: string, body: B)
    | Retract(key: Key, fence: int, now: string)
    | SetStatus(key: Key, fence: int, now: string, body: B)

  datatype Decision<B> =
    | Superseded                 // the row's mark is above the token
    | Absent                     // no live row to retract or to observe
    | Unchanged(row: Row<B>)     // the stored value is already the requested one
    | Proceed(write: Write<B>)

  function ReadRow<B>(t: Tables<B>, key: Key): Option<Row<B>> {
    if key in t.rows then Some(t.rows[key]) else None
  }

  /** `get`: tombstones read as absent. */
  function Get<B>(t: Tables<B>, key: Key): Option<Row<B>> {
    if key in t.rows && t.rows[key].Live() then Some(t.rows[key]) else None
  }

  function Decide<B(==)>(req: Request<B>, existing: Option<Row<B>>): Decision<B> {
    match req
    case Admit(key, fence, now, body) =>
      if existing.Some? && existing.value.fence > fence then Superseded
      else if existing.Some? && existing.value.Live() && existing.value.spec == body && existing.value.fence == fence then
        Unchanged(existing.value)
      else
        Proceed(AdmitRow(key, fence, now, body,
                         if existing.Some? && existing.value.Live() then Updated else Created))
    case Retract(key, fence, now) =>
      if existing.None? || !existing.value.Live() then Absent
      else if existing.value.fence > fence then Superseded
      else Proceed(RetractRow(key, fence, now))
    case SetStatus(key, fence, now, body) =>
      if existing.None? || !existing.value.Live() then Absent
      else if existing.value.fence > fence then Superseded
      else if existing.value.status == Some(body) then Unchanged(existing.value)
      else Proceed(StatusRow(key, fence, now, body))
  }

  /** Read and transaction with nothing in between; `None` when the caller sees an error. */
  ghost function Atomically<B>(t: Tables<B>, req: Request<B>): Option<Tables<B>> {
    match Decide(req, ReadRow(t, req.key))
    case Superseded => None
    case Proceed(w) => Txn(t, w)
    case _ => Some(t)
  }

  /** What the caller asked for is what the row says. */
  predicate Holds<B(==)>(t: Tables<B>, req: Request<B>) {
    match req
    case Admit(key, fence, _, body) =>
      key in t.rows && t.rows[key].Live() && t.rows[key].spec == body && t.rows[key].fence == fence
    case Retract(key, _, _) => key !in t.rows || !t.rows[key].Live()
    case SetStatus(key, _, _, body) => Get(t, key).None? || t.rows[key].status == Some(body)
  }

  predicate Unfenced<B>(t: Tables<B>, req: Request<B>) {
    Get(t, req.key).Some? ==> t.rows[req.key].fence <= req.fence
  }

  /** Called alone, a request is refused exactly when its token is below a mark it must respect. */
  lemma AtomicRefusal<B>(t: Tables<B>, req: Request<B>)
    requires Consistent(t)
    ensures Atomically(t, req).None? <==>
            && req.key in t.rows && t.rows[req.key].fence > req.fence
            && (req.Admit? || t.rows[req.key].Live())
  {
    var d := Decide(req, ReadRow(t, req.key));
    if d.Proceed? { TxnAbortsIffFenced(t, d.write); }
  }

  /**
   When it is not refused its wish holds afterwards, and it spends one revision exactly
   when its wish did not hold before.
   */
  lemma AtomicOutcome<B>(t: Tables<B>, req: Request<B>)
    requires Consistent(t) && Atomically(t, req).Some?
    ensures var t' := Atomically(t, req).value;
            && Consistent(t') && Evolves(t, t')
            && Holds(t', req) && Unfenced(t', req)
            && (Holds(t, req) ==> t' == t)
            && (!Holds(t, req) ==> MaxRevision(t'.rows) == MaxRevision(t.rows) + 1)
  {
    hide Evolves, Consistent, Txn, MaxRevision;
    var d := Decide(req, ReadRow(t, req.key));
    GaplessOf(t);
    EvolvesSame(t);
    if d.Proceed? {
      TxnAbortsIffFenced(t, d.write);
      ProceedLands(t, req, d.write);
      TxnKeeps(t, d.write);
      RowLands(t, d.write);
      TxnLands(t, d.write);
    }
  }

  /** A decided write finds what its own read found, so it lands. */
  lemma ProceedLands<B>(t: Tables<B>, req: Request<B>, w: Write<B>)
    requires Decide(req, ReadRow(t, req.key)) == Proceed(w)
    ensures Lands(t, w)
  {}

  /** The quiescence rule: asking for what already holds commits nothing. */
  lemma HeldIsQuiet<B>(t: Tables<B>, req: Request<B>)
    requires Holds(t, req) && Unfenced(t, req)
    ensures Atomically(t, req) == Some(t)
  {}

  lemma RepeatIsQuiet<B>(t: Tables<B>, req: Request<B>)
    requires Consistent(t) && Atomically(t, req).Some?
    ensures var t' := Atomically(t, req).value; Atomically(t', req) == Some(t')
  {
    AtomicOutcome(t, req);
    HeldIsQuiet(Atomically(t, req).value, req);
  }

  /** Which columns an uninterrupted request leaves as they were. */
  lemma AtomicColumns<B>(t: Tables<B>, req: Request<B>)
    requires Gapless(t) && Atomically(t, req).Some?
    ensures var t' := Atomically(t, req).value;
            && (forall k :: k != req.key ==> (k in t'.rows <==> k in t.rows) && (k in t.rows ==> t'.rows[k] == t.rows[k]))
            && (req.Admit? ==>
                  && req.key in t'.rows
                  && t'.rows[req.key].spec == req.body && t'.rows[req.key].Live() && t'.rows[req.key].fence == req.fence
                  && t'.rows[req.key].status == (if req.key in t.rows then t.rows[req.key].status else None))
            && (req.SetStatus? && Get(t, req.key).Some? ==>
                  && req.key in t'.rows
                  && t'.rows[req.key].spec == t.rows[req.key].spec && t'.rows[req.key].Live()
                  && t'.rows[req.key].status == Some(req.body)
                  && t.rows[req.key].fence <= t'.rows[req.key].fence <= req.fence)
  {
    var d := Decide(req, ReadRow(t, req.key));
    if d.Proceed? {
      RowLands(t, d.write);
      TxnLands(t, d.write);
    }
  }

  /**
   What an uninterrupted request records: nothing, or one outbox entry, at the new
   revision, for its own row and time. The verb is about the row as it was found: an
   admission of a row nobody could see creates it, an admission or a status write of a
   live one updates it, and only a retraction deletes.
   */
  lemma AtomicEntry<B>(t: Tables<B>, req: Request<B>)
    requires Consistent(t) && Atomically(t, req).Some?
    ensures var t', next := Atomically(t, req).value, MaxRevision(t.rows) + 1;
            && (t' == t || (next in t'.outbox && t'.outbox == t.outbox[next := t'.outbox[next]]))
            && (t' != t ==> t'.outbox[next].key == req.key && t'.outbox[next].at == req.now)
            && (t' != t ==> (t'.outbox[next].op == Created <==> req.Admit? && Get(t, req.key).None?))
            && (t' != t ==> (t'.outbox[next].op == Updated <==> !req.Retract? && Get(t, req.key).Some?))
            && (t' != t ==> (t'.outbox[next].op == Deleted <==> req.Retract?))
  {
    hide MaxRevision, WriteRow;
    GaplessOf(t);
    var d := Decide(req, ReadRow(t, req.key));
    if d.Proceed? {
      ProceedLands(t, req, d.write);
      TxnLands(t, d.write);
    }
  }

  /** The times a changing request leaves on its row. */
  lemma AtomicTimes<B>(t: Tables<B>, req: Request<B>)
    requires Consistent(t) && Atomically(t, req).Some? && Atomically(t, req).value != t
    ensures req.key in Atomically(t, req).value.rows
    ensures var row := Atomically(t, req).value.rows[req.key];
            && row.updatedAt == req.now
            && row.createdAt == (if req.key in t.rows then t.rows[req.key].createdAt else req.now)
            && row.deletedAt == (if req.Retract? then Some(req.now) else None)
            && row.fence == req.fence
  {
    hide MaxRevision, WriteRow, Consistent, Gapless;
    GaplessOf(t);
    var d := Decide(req, ReadRow(t, req.key));
    ProceedLands(t, req, d.write);
    RowLands(t, d.write);
    TxnLands(t, d.write);
  }
}
