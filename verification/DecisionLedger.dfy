/**
 The Decision ledger's code, statement by statement, against the two step machines: the
 append's compare-and-swap loop, and the queue with its bracket and its recovery.
 */
module DecisionLedger {
  import opened Wrappers
  import C = DecisionChain
  import W = CrashWindow

  // --------------------------------------------------------------------------
  // One append among rivals
  // --------------------------------------------------------------------------

  /** The table; `root` is the model every writer has booted. */
  class Table {
    const root: string
    var rows: seq<C.Row>
    var nextSeq: nat

    ghost predicate Valid()
      reads this
    {
      C.Chain(root, rows) && forall i :: 0 <= i < |rows| ==> rows[i].seqno < nextSeq
    }

    constructor (root: string)
      ensures Valid() && this.root == root && rows == []
    {
      this.root, rows, nextSeq := root, [], 1;
    }

    method Head() returns (head: Option<C.Row>)
      requires Valid()
      ensures C.IsHead(rows, head)
      ensures head == if rows == [] then None else Some(rows[|rows| - 1])
    {
      if rows == [] { return None; }
      assert forall x :: x in rows ==> x.seqno <= rows[|rows| - 1].seqno;
      return Some(rows[|rows| - 1]);
    }

    /** Takes a number whether or not the unique parent index lets the row in. */
    method Insert(prev: C.Hash, record: string, author: nat) returns (ok: bool)
      requires Valid() && exists n :: 0 <= n <= |rows| && prev == C.Tip(root, rows, n)
      modifies this`rows, this`nextSeq
      ensures Valid() && nextSeq == old(nextSeq) + 1
      ensures ok <==> prev == C.Tip(root, old(rows), |old(rows)|)
      ensures rows == if ok then old(rows) + [C.Row(old(nextSeq), prev, C.Of(prev, record), record, author)] else old(rows)
    {
      ghost var n :| 0 <= n <= |rows| && prev == C.Tip(root, rows, n);
      C.FreeIsTip(root, rows, n);
      C.TipDepth(root, rows, n);
      C.TipDepth(root, rows, |rows|);
      ok := !C.Claimed(rows, prev);
      var row := C.Row(nextSeq, prev, C.Of(prev, record), record, author);
      nextSeq := nextSeq + 1;
      if ok {
        C.LinkOne(root, rows, row);
        rows := rows + [row];
      }
    }

    /** Other writers' records, each landing on the head it finds. */
    method Rivals(records: seq<string>, author: nat)
      requires Valid()
      modifies this`rows, this`nextSeq
      ensures Valid() && |rows| == |old(rows)| + |records| && old(rows) <= rows
      ensures forall i :: |old(rows)| <= i < |rows| ==> rows[i].author == author
    {
      for i := 0 to |records|
        invariant Valid() && |rows| == |old(rows)| + i && old(rows) <= rows
        invariant forall k :: |old(rows)| <= k < |rows| ==> rows[k].author == author
      {
        assert C.Tip(root, rows, |rows|) == C.Tip(root, rows, |rows|);
        var _ := Insert(C.Tip(root, rows, |rows|), records[i], author);
      }
    }

    /** One attempt: read the head, let the rivals in, insert the record built on that head. */
    method Attempt(build: Option<C.Row> -> string, rival: seq<string>, me: nat, other: nat) returns (ok: bool)
      requires Valid()
      modifies this`rows, this`nextSeq
      ensures Valid() && old(rows) <= rows && (ok <==> rival == [])
      ensures |rows| == |old(rows)| + |rival| + (if ok then 1 else 0)
      ensures ok ==> rows[|rows| - 1].author == me && rows[|rows| - 1].record == build(Before(rows))
      ensures !ok ==> forall i :: |old(rows)| <= i < |rows| ==> rows[i].author == other
    {
      hide C.Linked, C.NumbersAscend, C.IsHead;
      var head := Head();
      ghost var before := rows;
      var prev := if head.Some? then head.value.hash else C.Model(root);
      var record := build(head);
      Rivals(rival, other);
      TipKept(root, before, rows);
      assert prev == C.Tip(root, rows, |before|);
      C.TipDepth(root, rows, |before|);
      C.TipDepth(root, rows, |rows|);
      ok := Insert(prev, record, me);
    }

    /**
     `appendUnlocked`: at most three attempts, each building its record anew on the head it
     read, `rivals[i]` landing between the i-th read and its insert. It gives up having
     written nothing, and only after losing each time.
     */
    method AppendUnlocked(build: Option<C.Row> -> string, rivals: seq<seq<string>>, me: nat, other: nat)
      returns (ok: bool)
      requires Valid() && |rivals| == 3 && me != other
      modifies this`rows, this`nextSeq
      ensures Valid() && old(rows) <= rows
      ensures ok <==> exists i :: 0 <= i < |rivals| && rivals[i] == []
      ensures ok ==> rows != [] && rows[|rows| - 1].author == me && rows[|rows| - 1].record == build(Before(rows))
      ensures ok ==> forall i :: |old(rows)| <= i < |rows| - 1 ==> rows[i].author == other
      ensures !ok ==> forall i :: |old(rows)| <= i < |rows| ==> rows[i].author == other
    {
      hide Valid;
      var attempt := 1;
      while true
        invariant 1 <= attempt <= C.CAS_ATTEMPTS
        invariant Valid() && old(rows) <= rows
        invariant forall i :: |old(rows)| <= i < |rows| ==> rows[i].author == other
        invariant forall i :: 0 <= i < attempt - 1 ==> rivals[i] != []
        decreases C.CAS_ATTEMPTS - attempt
      {
        var inserted := Attempt(build, rivals[attempt - 1], me, other);
        if inserted { return true; }
        if attempt >= C.CAS_ATTEMPTS { return false; }
        attempt := attempt + 1;
      }
    }
  }

  /** The head a table's last record was appended to. */
  function Before(rows: seq<C.Row>): Option<C.Row> { if |rows| <= 1 then None else Some(rows[|rows| - 2]) }

  lemma TipKept(root: string, before: seq<C.Row>, rows: seq<C.Row>)
    requires before <= rows
    ensures C.Tip(root, rows, |before|) == C.Tip(root, before, |before|)
  {}

  // --------------------------------------------------------------------------
  // The queue, its bracket, and recovery
  // --------------------------------------------------------------------------

  /** What `n` undisturbed steps of the process lead to. */
  ghost function Undisturbed(s: W.System, n: nat): W.System
    decreases n
  {
    if n == 0 || !W.Enabled(s, W.Step) then s else Undisturbed(W.Next(s, W.Step), n - 1)
  }

  class Ledger {
    const model: string
    var rows: seq<W.Entry>
    var dirty: bool
    var initialized: bool
    var pending: int
    var open: bool
    var queue: seq<W.Op>
    ghost var recorded: set<nat>
    ghost var joined: map<nat, nat>

    /** The machine's view of this object while the head of the queue is at `stage`. */
    ghost function At(stage: W.Stage): W.System
      reads this
    {
      W.System(rows, dirty, Some(W.Process(model, initialized, pending, open, queue, stage)), recorded, joined)
    }

    constructor (model: string, rows: seq<W.Entry>, dirty: bool, ghost recorded: set<nat>, ghost joined: map<nat, nat>)
      ensures At(W.Start) == W.Next(W.System(rows, dirty, None, recorded, joined), W.Boot(model))
    {
      this.model, this.rows, this.dirty := model, rows, dirty;
      initialized, pending, open, queue := false, 0, false, [];
      this.recorded, this.joined := recorded, joined;
    }

    method RecordDenial(id: nat)
      requires id !in recorded
      modifies this
      ensures At(W.Start) == W.Next(old(At(W.Start)), W.Record(id))
    {
      if open { joined := map k | k in joined.Keys + {id} :: if k in {id} then |rows| else joined[k]; }
      recorded := recorded + {id};
      pending := pending + 1;
      queue := queue + [W.Deny(id)];
    }

    /**
     `initUnlocked`: a no-op once initialised, the machine's recovery otherwise. When the
     stored chain does not verify it throws with everything recovered and nothing served:
     the process is at the machine's verifying stage, and ends there.
     */
    method InitUnlocked(chainVerifies: bool) returns (ok: bool)
      requires queue != []
      modifies this`rows, this`dirty, this`initialized
      ensures ok <==> old(initialized) || chainVerifies
      ensures initialized == ok
      ensures old(initialized) ==> rows == old(rows) && dirty == old(dirty)
      ensures !old(initialized) && ok ==> At(W.Ready) == W.Steps(old(At(W.Start)), 5)
      ensures !ok ==> At(W.Verifying) == W.Steps(old(At(W.Start)), if old(dirty) then 4 else 3) && !dirty
    {
      if initialized { return true; }
      W.RecoveryCompletes(At(W.Start), At(W.Start).process.value);
      W.RecoveryUntilVerified(At(W.Start), At(W.Start).process.value);
      var wasDirty := dirty;
      if W.LastGenesis(rows) != Some(model) { rows := rows + [W.Genesis(model)]; }
      if wasDirty {
        rows := rows + [W.Marker];
        dirty := false;
      }
      if !chainVerifies { return false; }
      initialized := true;
      return true;
    }

    /** The bracket opens, durably, unless it is open already. */
    method OpenBracket()
      requires initialized && queue != [] && queue[0].Deny?
      modifies this`dirty, this`open, this`joined
      ensures At(W.Appending) == Undisturbed(old(At(W.Start)), 2)
      ensures open && (old(open) ==> dirty == old(dirty)) && (!old(open) ==> dirty)
    {
      hide W.Denials;
      ghost var s := At(W.Start);
      if !open {
        joined := map k | k in joined.Keys + W.Denials(queue) :: if k in W.Denials(queue) then |rows| else joined[k];
        dirty := true;
        open := true;
      }
      TwoSteps(s);
    }

    method LandDenial()
      requires initialized && queue != [] && queue[0].Deny?
      modifies this`rows
      ensures At(W.Leaving) == Undisturbed(old(At(W.Appending)), 1)
      ensures rows == old(rows) + [W.Denied(queue[0].id)]
    {
      ghost var s := At(W.Appending);
      rows := rows + [W.Denied(queue[0].id)];
      OneStep(s);
    }

    /** The `finally`: the last pending denial closes the bracket. */
    method LeaveBracket()
      requires initialized && queue != [] && queue[0].Deny? && open
      modifies this`pending, this`open, this`dirty, this`queue
      ensures At(W.Start) == Undisturbed(old(At(W.Leaving)), if old(pending) == 1 then 2 else 1)
      ensures if old(pending) == 1 then !dirty && !open else open && dirty == old(dirty)
    {
      ghost var s := At(W.Leaving);
      OneStep(s);
      if pending == 1 { TwoSteps(s); }
      pending := pending - 1;
      if pending == 0 && open {
        dirty := false;
        open := false;
      }
      queue := queue[1..];
    }

    /** One queued denial, start to finish, in an initialised process. */
    method RunDenial()
      requires initialized && queue != [] && queue[0].Deny?
      modifies this
      ensures At(W.Start) == Undisturbed(old(At(W.Start)), if old(pending) == 1 then 5 else 4)
      ensures rows == old(rows) + [W.Denied(old(queue)[0].id)]
      ensures if old(pending) == 1 then !dirty && !open else open && (!old(open) ==> dirty)
    {
      hide Undisturbed;
      ghost var s, more := At(W.Start), if pending == 1 then 2 else 1;
      OpenBracket();
      LandDenial();
      StepsAdd(s, 2, 1);
      StepsAdd(s, 3, more);
      LeaveBracket();
    }
  }

  ghost predicate Steppable(s: W.System) {
    s.process.Some? && s.process.value.queue != [] && s.process.value.initialized
  }

  ghost function Stepped(s: W.System): W.System
    requires Steppable(s)
  {
    W.BodyStep(s, s.process.value)
  }

  lemma OneStep(s: W.System)
    requires Steppable(s)
    ensures Undisturbed(s, 1) == Stepped(s)
  {
    hide W.BodyStep;
    assert Undisturbed(W.Next(s, W.Step), 0) == W.Next(s, W.Step);
  }

  lemma TwoSteps(s: W.System)
    requires Steppable(s) && Steppable(Stepped(s))
    ensures Undisturbed(s, 2) == Stepped(Stepped(s))
  {
    hide W.BodyStep;
    OneStep(Stepped(s));
  }

  lemma {:induction false} StepsAdd(s: W.System, a: nat, b: nat)
    ensures Undisturbed(s, a + b) == Undisturbed(Undisturbed(s, a), b)
    decreases a
  {
    hide W.Enabled, W.Next;
    if a > 0 {
      if W.Enabled(s, W.Step) { StepsAdd(W.Next(s, W.Step), a - 1, b); } else { Stuck(s, b); }
    }
  }

  lemma Stuck(s: W.System, n: nat)
    requires !W.Enabled(s, W.Step)
    ensures Undisturbed(s, n) == s
  {}
}
