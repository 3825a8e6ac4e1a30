/**
 The denial bracket of the Decision ledger: one process, its serialized queue of
 appends, a durable dirty flag, and the recovery the next process runs. The process may
 die between any two steps, recovery included. A step is one durable statement together
 with the in-memory work that follows it; requests arrive between any two steps.
 */
module CrashWindow {
  import opened Wrappers

  datatype Entry =
    | Genesis(model: string)
    | Decided(id: nat)
    | Denied(id: nat)
    | Marker

  /** What waits in the queue: a bare initialisation, an appended decision, a denial. */
  datatype Op = Ensure | Append(id: nat) | Deny(id: nat)

  /** How far the operation at the head of the queue has got. */
  datatype Stage =
    | Start                        // about to look at `initialized`
    | Founding(wasDirty: bool)     // the flag is read; genesis is next
    | Marking(wasDirty: bool)
    | Clearing                     // the marker is in; the stale flag is not cleared yet
    | Verifying
    | Ready                        // initialised; the operation's own work is next
    | Appending
    | Leaving                      // a denial's append is over, one way or the other
    | Closing                      // no denial is pending; the flag is about to be cleared

  datatype Process = Process(model: string, initialized: bool, pending: int, open: bool, queue: seq<Op>, stage: Stage)

  /** `joined` remembers which denials were waiting inside an open bracket, and the rows there were. */
  datatype System = System(
    rows: seq<Entry>,
    dirty: bool,
    process: Option<Process>,
    recorded: set<nat>,
    joined: map<nat, nat>)

  datatype Event =
    | Boot(model: string)
    | Crash
    | Enqueue(op: Op)
    | Record(id: nat)
    | Step
    | Fail              // the append in hand throws instead of landing

  // --------------------------------------------------------------------------
  // Steps
  // --------------------------------------------------------------------------

  function LastGenesis(rows: seq<Entry>): Option<string> {
    if rows == [] then None
    else if rows[|rows| - 1].Genesis? then Some(rows[|rows| - 1].model)
    else LastGenesis(rows[..|rows| - 1])
  }

  function Denials(queue: seq<Op>): set<nat> {
    if queue == [] then {}
    else (if queue[0].Deny? then {queue[0].id} else {}) + Denials(queue[1..])
  }

  function CountDenials(queue: seq<Op>): nat {
    if queue == [] then 0 else (if queue[0].Deny? then 1 else 0) + CountDenials(queue[1..])
  }

  function With(s: System, p: Process): System { s.(process := Some(p)) }

  function Joining(s: System, ids: set<nat>): System {
    s.(joined := map id | id in s.joined.Keys + ids :: if id in ids then |s.rows| else s.joined[id])
  }

  /** The head of the queue is over. */
  function Finished(p: Process): Process
    requires p.queue != []
  {
    p.(queue := p.queue[1..], stage := Start)
  }

  /** `initUnlocked`, one durable statement at a time. */
  function InitStep(s: System, p: Process): System {
    match p.stage
    case Start => With(s, p.(stage := Founding(s.dirty)))
    case Founding(wasDirty) =>
      With(if LastGenesis(s.rows) == Some(p.model) then s else s.(rows := s.rows + [Genesis(p.model)]),
           p.(stage := Marking(wasDirty)))
    case Marking(wasDirty) =>
      if wasDirty then With(s.(rows := s.rows + [Marker]), p.(stage := Clearing))
      else With(s, p.(stage := Verifying))
    case Clearing => With(s.(dirty := false), p.(stage := Verifying))
    case _ => With(s, p.(initialized := true, stage := Ready))
  }

  function EndAppend(s: System, p: Process): System
    requires p.queue != []
  {
    With(s, if p.queue[0].Deny? then p.(stage := Leaving) else Finished(p))
  }

  /** The body of the operation at the head of the queue, once initialised. */
  function BodyStep(s: System, p: Process): System
    requires p.queue != []
  {
    match p.stage
    case Start => With(s, p.(stage := Ready))
    case Ready =>
      (match p.queue[0]
       case Ensure => With(s, Finished(p))
       case Append(_) => With(s, p.(stage := Appending))
       case Deny(_) =>
         if p.open then With(s, p.(stage := Appending))
         else Joining(With(s.(dirty := true), p.(open := true, stage := Appending)), Denials(p.queue)))
    case Appending =>
      (match p.queue[0]
       case Deny(id) => EndAppend(s.(rows := s.rows + [Denied(id)]), p)
       case Append(id) => EndAppend(s.(rows := s.rows + [Decided(id)]), p)
       case Ensure => EndAppend(s, p))
    case Leaving =>
      var p' := p.(pending := p.pending - 1);
      With(s, if p'.pending == 0 && p'.open then p'.(stage := Closing) else Finished(p'))
    case _ => With(s.(dirty := false), Finished(p.(open := false)))
  }

  ghost predicate Enabled(s: System, e: Event) {
    match e
    case Boot(_) => s.process.None?
    case Crash => s.process.Some?
    case Enqueue(op) => s.process.Some? && !op.Deny?
    case Record(id) => s.process.Some? && id !in s.recorded
    case Step => s.process.Some? && s.process.value.queue != []
    case Fail => s.process.Some? && s.process.value.queue != [] && s.process.value.stage.Appending?
  }

  ghost function Next(s: System, e: Event): System
    requires Enabled(s, e)
  {
    match e
    case Boot(model) => With(s, Process(model, false, 0, false, [], Start))
    case Crash => s.(process := None)
    case Enqueue(op) => With(s, s.process.value.(queue := s.process.value.queue + [op]))
    case Record(id) =>
      var p := s.process.value;
      var s' := With(s, p.(queue := p.queue + [Deny(id)], pending := p.pending + 1)).(recorded := s.recorded + {id});
      if p.open && !p.stage.Closing? then Joining(s', {id}) else s'
    case Step => if s.process.value.initialized then BodyStep(s, s.process.value) else InitStep(s, s.process.value)
    case Fail => EndAppend(s, s.process.value)
  }

  ghost predicate IsTrace(run: seq<System>, events: seq<Event>) {
    && |run| == |events| + 1
    && forall i :: 0 <= i < |events| ==> Enabled(run[i], events[i]) && run[i + 1] == Next(run[i], events[i])
  }

  function Empty(): System { System([], false, None, {}, map[]) }

  /** A run from an empty store in which appends fail only by the process dying. */
  ghost predicate IsRun(run: seq<System>, events: seq<Event>) {
    && IsTrace(run, events) && run[0] == Empty()
    && forall i :: 0 <= i < |events| ==> !events[i].Fail?
  }

  // --------------------------------------------------------------------------
  // The invariant
  // --------------------------------------------------------------------------

  predicate Safe(s: System, id: nat)
    requires id in s.joined
  {
    Denied(id) in s.rows || exists i :: s.joined[id] <= i < |s.rows| && s.rows[i] == Marker
  }

  ghost predicate AllSafe(s: System) { forall id :: id in s.joined ==> Safe(s, id) }

  /** Denials whose append is still ahead of this process. */
  function Ahead(p: Process): seq<Op> {
    if p.queue != [] && p.stage in {Leaving, Closing} then p.queue[1..] else p.queue
  }

  ghost predicate CountOk(p: Process) {
    p.pending == CountDenials(if p.queue != [] && p.stage.Closing? then p.queue[1..] else p.queue)
  }

  ghost predicate Recovering(s: System, p: Process) {
    && !p.open
    && match p.stage
       case Start => AllSafe(s) || s.dirty
       case Founding(wasDirty) => wasDirty == s.dirty && (AllSafe(s) || wasDirty)
       case Marking(wasDirty) => wasDirty == s.dirty && (AllSafe(s) || wasDirty)
       case Clearing => AllSafe(s)
       case Verifying => AllSafe(s)
       case _ => false
  }

  ghost predicate Running(s: System, p: Process) {
    && p.stage in {Start, Ready, Appending, Leaving, Closing}
    && (p.open ==> s.dirty)
    && (p.stage in {Leaving, Closing} ==> p.queue != [] && p.queue[0].Deny?)
    && (p.stage.Closing? ==> p.open)
    && (p.stage in {Appending, Leaving} && p.queue != [] && p.queue[0].Deny? ==> p.open)
    && forall id :: id in s.joined && !Safe(s, id) ==> p.open && !p.stage.Closing? && id in Denials(Ahead(p))
  }

  ghost predicate Inv(s: System) {
    match s.process
    case None => AllSafe(s) || s.dirty
    case Some(p) =>
      && CountOk(p) && (p.stage != Start ==> p.queue != [])
      && if p.initialized then Running(s, p) else Recovering(s, p)
  }

  lemma {:induction false} DenialsGrow(queue: seq<Op>, op: Op)
    ensures Denials(queue + [op]) == Denials(queue) + (if op.Deny? then {op.id} else {})
    ensures CountDenials(queue + [op]) == CountDenials(queue) + (if op.Deny? then 1 else 0)
  {
    if queue != [] {
      assert (queue + [op])[1..] == queue[1..] + [op];
      DenialsGrow(queue[1..], op);
    }
  }

  lemma {:induction false} NoneAhead(queue: seq<Op>)
    ensures CountDenials(queue) == 0 ==> Denials(queue) == {}
  {
    if queue != [] { NoneAhead(queue[1..]); }
  }

  /** New rows never take back what the old ones promised. */
  lemma SafeGrows(s: System, s': System, id: nat)
    requires s.rows <= s'.rows && id in s.joined && id in s'.joined && s.joined[id] == s'.joined[id] && Safe(s, id)
    ensures Safe(s', id)
  {
    if Denied(id) in s.rows {
      var i :| 0 <= i < |s.rows| && s.rows[i] == Denied(id);
      assert s'.rows[i] == Denied(id);
    } else {
      var i :| s.joined[id] <= i < |s.rows| && s.rows[i] == Marker;
      assert s'.rows[i] == Marker;
    }
  }

  lemma AllSafeGrows(s: System, s': System)
    requires s.rows <= s'.rows && s.joined == s'.joined && AllSafe(s)
    ensures AllSafe(s')
  {
    forall id | id in s'.joined ensures Safe(s', id) { SafeGrows(s, s', id); }
  }

  ghost predicate JoinedOk(s: System) { forall id :: id in s.joined ==> s.joined[id] <= |s.rows| }

  lemma MarkerSaves(s: System, s': System)
    requires JoinedOk(s) && s'.joined == s.joined && s'.rows == s.rows + [Marker]
    ensures AllSafe(s')
  {
    assert s'.rows[|s.rows|] == Marker;
  }

  lemma InitKeepsInv(s: System)
    requires Inv(s) && JoinedOk(s) && s.process.Some? && s.process.value.queue != [] && !s.process.value.initialized
    ensures Inv(InitStep(s, s.process.value)) && JoinedOk(InitStep(s, s.process.value))
  {
    hide AllSafe, Safe, CountDenials, LastGenesis;
    var p := s.process.value;
    var s' := InitStep(s, p);
    if p.stage.Marking? && p.stage.wasDirty { MarkerSaves(s, s'); }
    else if AllSafe(s) { AllSafeGrows(s, s'); }
    if p.stage.Verifying? { SafeMeansSafe(s'); }
  }

  lemma SafeMeansSafe(s: System)
    ensures AllSafe(s) ==> forall id :: id in s.joined ==> Safe(s, id)
  {}

  lemma UnsafeBefore(s: System, s': System, id: nat)
    requires s.rows <= s'.rows && s.joined == s'.joined && id in s'.joined && !Safe(s', id)
    ensures !Safe(s, id)
  {
    if Safe(s, id) { SafeGrows(s, s', id); }
  }

  /** Opening the bracket takes in every denial waiting in the queue. */
  lemma OpeningKeepsInv(s: System, p: Process)
    requires Inv(s) && JoinedOk(s) && s.process == Some(p) && p.queue != [] && p.initialized
    requires p.stage.Ready? && p.queue[0].Deny? && !p.open
    ensures Inv(BodyStep(s, p)) && JoinedOk(BodyStep(s, p))
  {
    hide Safe, CountDenials, Denials;
    var s' := BodyStep(s, p);
    forall id | id in s'.joined && !Safe(s', id) ensures id in Denials(p.queue) {
      if id !in Denials(p.queue) { SafeGrows(s, s', id); }
    }
  }

  lemma DenialLands(s: System, p: Process)
    requires Inv(s) && JoinedOk(s) && s.process == Some(p) && p.queue != [] && p.initialized
    requires p.stage.Appending? && p.queue[0].Deny?
    ensures Inv(BodyStep(s, p)) && JoinedOk(BodyStep(s, p))
  {
    hide Safe, CountDenials;
    var s' := BodyStep(s, p);
    forall id | id in s'.joined && !Safe(s', id) ensures id in Denials(p.queue[1..]) {
      UnsafeBefore(s, s', id);
      if id == p.queue[0].id { DenialIsSafe(s, s', id); }
    }
  }

  lemma DenialIsSafe(s: System, s': System, id: nat)
    requires s'.rows == s.rows + [Denied(id)] && id in s'.joined
    ensures Safe(s', id)
  {
    assert s'.rows[|s.rows|] == Denied(id);
  }

  lemma LeavingKeepsInv(s: System, p: Process)
    requires Inv(s) && JoinedOk(s) && s.process == Some(p) && p.queue != [] && p.initialized && p.stage.Leaving?
    ensures Inv(BodyStep(s, p)) && JoinedOk(BodyStep(s, p))
  {
    hide Safe;
    var s' := BodyStep(s, p);
    NoneAhead(p.queue[1..]);
    forall id | id in s'.joined && !Safe(s', id) ensures id in Denials(p.queue[1..]) { UnsafeBefore(s, s', id); }
  }

  lemma PlainKeepsInv(s: System, p: Process)
    requires Inv(s) && JoinedOk(s) && s.process == Some(p) && p.queue != [] && p.initialized
    requires p.stage in {Start, Ready, Appending, Closing}
    requires p.queue[0].Deny? && p.stage.Ready? ==> p.open
    requires p.queue[0].Deny? ==> !p.stage.Appending?
    ensures Inv(BodyStep(s, p)) && JoinedOk(BodyStep(s, p))
  {
    hide Safe;
    var s' := BodyStep(s, p);
    forall id | id in s'.joined && !Safe(s', id) ensures !Safe(s, id) { UnsafeBefore(s, s', id); }
  }

  lemma BodyKeepsInv(s: System, p: Process)
    requires Inv(s) && JoinedOk(s) && s.process == Some(p) && p.queue != [] && p.initialized
    ensures Inv(BodyStep(s, p)) && JoinedOk(BodyStep(s, p))
  {
    hide CountOk, Safe, JoinedOk, BodyStep, Denials;
    if p.stage.Leaving? { LeavingKeepsInv(s, p); }
    else if p.queue[0].Deny? && p.stage.Appending? { DenialLands(s, p); }
    else if p.queue[0].Deny? && p.stage.Ready? && !p.open { OpeningKeepsInv(s, p); }
    else { PlainKeepsInv(s, p); }
  }

  lemma EnqueueKeepsInv(s: System, e: Event)
    requires Inv(s) && JoinedOk(s) && Enabled(s, e) && (e.Enqueue? || e.Record?)
    ensures Inv(Next(s, e)) && JoinedOk(Next(s, e))
  {
    hide Safe, Denials, CountDenials, AllSafe;
    var p := s.process.value;
    var op := if e.Record? then Deny(e.id) else e.op;
    var s' := Next(s, e);
    DenialsGrow(p.queue, op);
    if p.queue != [] {
      assert (p.queue + [op])[1..] == p.queue[1..] + [op];
      DenialsGrow(p.queue[1..], op);
    }
    if p.initialized {
      forall id | id in s'.joined && !Safe(s', id)
        ensures p.open && !p.stage.Closing? && id in Denials(Ahead(s'.process.value))
      {
        if e.Record? && p.open && !p.stage.Closing? && id == e.id {
        } else if Safe(s, id) { SafeGrows(s, s', id); }
      }
    } else if AllSafe(s) {
      AllSafeGrows(s, s');
    }
  }

  lemma StepKeepsInv(s: System, e: Event)
    requires Inv(s) && JoinedOk(s) && Enabled(s, e) && !e.Fail?
    ensures Inv(Next(s, e)) && JoinedOk(Next(s, e))
  {
    hide BodyStep, InitStep, CountDenials, Denials, Safe, JoinedOk;
    match e
    case Step =>
      if s.process.value.initialized { BodyKeepsInv(s, s.process.value); } else { InitKeepsInv(s); }
    case Enqueue(_) => EnqueueKeepsInv(s, e);
    case Record(_) => EnqueueKeepsInv(s, e);
    case Boot(_) => StopKeepsInv(s, e);
    case Crash => StopKeepsInv(s, e);
  }

  lemma StopKeepsInv(s: System, e: Event)
    requires Inv(s) && JoinedOk(s) && Enabled(s, e) && (e.Boot? || e.Crash?)
    ensures Inv(Next(s, e)) && JoinedOk(Next(s, e))
  {
    hide Safe;
    var s' := Next(s, e);
    if AllSafe(s) {
      AllSafeGrows(s, s');
    } else {
      var id :| id in s.joined && !Safe(s, id);
      assert s.dirty;
    }
  }

  // --------------------------------------------------------------------------
  // Whole runs
  // --------------------------------------------------------------------------

  lemma {:induction false} RunKeepsInv(run: seq<System>, events: seq<Event>, n: nat)
    requires IsRun(run, events) && n < |run|
    ensures Inv(run[n]) && JoinedOk(run[n])
  {
    hide Inv, JoinedOk, Enabled, Next;
    if n == 0 {
      EmptyIsOk(run[0]);
    } else {
      RunKeepsInv(run, events, n - 1);
      assert Enabled(run[n - 1], events[n - 1]) && !events[n - 1].Fail?;
      StepKeepsInv(run[n - 1], events[n - 1]);
    }
  }

  lemma EmptyIsOk(s: System)
    requires s == Empty()
    ensures Inv(s) && JoinedOk(s)
  {}

  /** While recovery is still to come, or under way, an unsafe denial keeps the durable flag up. */
  lemma MarkIsOwed(run: seq<System>, events: seq<Event>, n: nat, id: nat)
    requires IsRun(run, events) && n < |run| && id in run[n].joined
    requires run[n].process.Some? ==> !run[n].process.value.initialized
    ensures Safe(run[n], id) || run[n].dirty
  {
    hide IsRun, Safe;
    RunKeepsInv(run, events, n);
  }

  /** Recorded by an earlier process: joined for good, and in no queue any more. */
  ghost predicate Settled(s: System, id: nat, at: nat) {
    && id in s.recorded && id in s.joined && s.joined[id] == at
    && (s.process.Some? ==> id !in Denials(s.process.value.queue))
  }

  lemma SettledStays(s: System, e: Event, id: nat, at: nat)
    requires Enabled(s, e) && Settled(s, id, at)
    ensures Settled(Next(s, e), id, at)
  {
    hide CountDenials;
    if e.Record? { DenialsGrow(s.process.value.queue, Deny(e.id)); }
    if e.Enqueue? { DenialsGrow(s.process.value.queue, e.op); }
  }

  ghost predicate JoinedRecorded(s: System) {
    && s.joined.Keys <= s.recorded
    && (s.process.Some? ==> Denials(s.process.value.queue) <= s.recorded)
  }

  lemma RecordedStep(s: System, e: Event)
    requires Enabled(s, e) && JoinedRecorded(s)
    ensures JoinedRecorded(Next(s, e))
  {
    hide CountDenials;
    if e.Record? { DenialsGrow(s.process.value.queue, Deny(e.id)); }
    if e.Enqueue? { DenialsGrow(s.process.value.queue, e.op); }
  }

  lemma {:induction false} RunRecorded(run: seq<System>, events: seq<Event>, n: nat)
    requires IsRun(run, events) && n < |run|
    ensures JoinedRecorded(run[n])
  {
    hide Next, Enabled;
    if n > 0 {
      RunRecorded(run, events, n - 1);
      assert Enabled(run[n - 1], events[n - 1]);
      RecordedStep(run[n - 1], events[n - 1]);
    }
  }

  lemma {:induction false} RunSettled(run: seq<System>, events: seq<Event>, k: nat, n: nat, id: nat)
    requires IsRun(run, events) && k < n < |run| && events[k].Crash? && id in run[k].joined
    ensures Settled(run[n], id, run[k].joined[id])
    decreases n
  {
    hide Next, Enabled;
    assert Enabled(run[n - 1], events[n - 1]);
    if n == k + 1 {
      RunRecorded(run, events, k);
      AfterCrash(run[k], events[k]);
    } else {
      RunSettled(run, events, k, n - 1, id);
      SettledStays(run[n - 1], events[n - 1], id, run[k].joined[id]);
    }
  }

  lemma AfterCrash(s: System, e: Event)
    requires Enabled(s, e) && e.Crash?
    ensures Next(s, e) == s.(process := None)
  {}

  lemma DenialsOfTail(queue: seq<Op>)
    requires queue != []
    ensures Denials(queue[1..]) <= Denials(queue)
  {}

  /**
   Once a later process has initialised, every denial that was inside the bracket when
   an earlier one died is in the chain, or a marker was appended after it joined.
   */
  lemma CrashWindowIsMarked(run: seq<System>, events: seq<Event>, k: nat, n: nat, id: nat)
    requires IsRun(run, events) && k < n < |run| && events[k].Crash? && id in run[k].joined
    requires run[n].process.Some? && run[n].process.value.initialized
    ensures Denied(id) in run[n].rows ||
            exists i :: run[k].joined[id] <= i < |run[n].rows| && run[n].rows[i] == Marker
  {
    hide IsRun, CountDenials, JoinedOk;
    RunSettled(run, events, k, n, id);
    RunKeepsInv(run, events, n);
    var p := run[n].process.value;
    if p.queue != [] { DenialsOfTail(p.queue); }
    assert Safe(run[n], id);
  }

  // --------------------------------------------------------------------------
  // Exactly when a crash leaves a mark
  // --------------------------------------------------------------------------

  predicate MarkedFrom(s: System, base: nat) { exists i :: base <= i < |s.rows| && s.rows[i] == Marker }

  predicate Initialized(s: System) { s.process.Some? && s.process.value.initialized }

  /**
   From the crash on until a process has initialised: with the flag up the marker is in or
   still owed, with the flag down none is in and none will be.
   */
  ghost predicate Owing(s: System, base: nat, flag: bool) {
    && (!flag ==> !s.dirty && !MarkedFrom(s, base))
    && match s.process
       case None => flag ==> MarkedFrom(s, base) || s.dirty
       case Some(p) =>
         match p.stage
         case Start => flag ==> MarkedFrom(s, base) || s.dirty
         case Founding(wasDirty) => (flag ==> MarkedFrom(s, base) || wasDirty) && (wasDirty ==> flag && s.dirty)
         case Marking(wasDirty) => (flag ==> MarkedFrom(s, base) || wasDirty) && (wasDirty ==> flag && s.dirty)
         case Clearing => flag && MarkedFrom(s, base)
         case Verifying => flag ==> MarkedFrom(s, base)
         case _ => false
  }

  lemma MarkedGrows(s: System, s': System, base: nat)
    requires s.rows <= s'.rows && base <= |s.rows|
    requires forall i :: |s.rows| <= i < |s'.rows| ==> s'.rows[i] != Marker
    ensures MarkedFrom(s', base) <==> MarkedFrom(s, base)
  {
    if MarkedFrom(s, base) {
      var i :| base <= i < |s.rows| && s.rows[i] == Marker;
      assert s'.rows[i] == Marker;
    }
  }

  lemma OwingStep(s: System, e: Event, base: nat, flag: bool)
    requires Enabled(s, e) && Owing(s, base, flag) && base <= |s.rows| && !Initialized(s)
    ensures base <= |Next(s, e).rows|
    ensures Initialized(Next(s, e)) ==> (MarkedFrom(Next(s, e), base) <==> flag)
    ensures !Initialized(Next(s, e)) ==> Owing(Next(s, e), base, flag)
  {
    hide LastGenesis, Denials, CountDenials, MarkedFrom;
    var s' := Next(s, e);
    if e.Step? && s.process.value.stage.Marking? && s.process.value.stage.wasDirty {
      assert MarkedFrom(s', base) by { MarkerIsMark(s, s', base); }
    } else {
      MarkedGrows(s, s', base);
    }
  }

  lemma MarkerIsMark(s: System, s': System, base: nat)
    requires s'.rows == s.rows + [Marker] && base <= |s.rows|
    ensures MarkedFrom(s', base)
  {
    assert s'.rows[|s.rows|] == Marker;
  }

  /** The first state after `k` in which a process has initialised. */
  ghost predicate FirstInitialized(run: seq<System>, k: nat, n: nat) {
    k < n < |run| && Initialized(run[n]) && forall m :: k < m < n ==> !Initialized(run[m])
  }

  lemma {:induction false} OwingUntil(run: seq<System>, events: seq<Event>, k: nat, m: nat)
    requires IsTrace(run, events) && k < m < |run| && events[k].Crash?
    requires forall i :: k < i <= m ==> !Initialized(run[i])
    ensures Owing(run[m], |run[k].rows|, run[k].dirty) && |run[k].rows| <= |run[m].rows|
    decreases m
  {
    hide Enabled, Next, Owing, Initialized;
    assert Enabled(run[m - 1], events[m - 1]);
    if m == k + 1 {
      AfterCrash(run[k], events[k]);
      CrashOwes(run[k]);
    } else {
      OwingUntil(run, events, k, m - 1);
      OwingStep(run[m - 1], events[m - 1], |run[k].rows|, run[k].dirty);
    }
  }

  lemma CrashOwes(s: System)
    ensures Owing(s.(process := None), |s.rows|, s.dirty)
  {}

  /**
   A crash is marked exactly when the durable flag was up: in the first state thereafter
   in which a process has initialised, however many died on the way and whatever appends
   failed before, a marker stands after everything the crash left.
   */
  lemma CrashIsMarkedExactly(run: seq<System>, events: seq<Event>, k: nat, n: nat)
    requires IsTrace(run, events) && k < |events| && events[k].Crash? && FirstInitialized(run, k, n)
    ensures MarkedFrom(run[n], |run[k].rows|) <==> run[k].dirty
  {
    hide Enabled, Next, Owing, MarkedFrom, Initialized;
    assert Enabled(run[k], events[k]);
    AfterCrash(run[k], events[k]);
    NotAlive(run[k]);
    OwingUntil(run, events, k, n - 1);
    assert Enabled(run[n - 1], events[n - 1]);
    OwingStep(run[n - 1], events[n - 1], |run[k].rows|, run[k].dirty);
  }

  lemma NotAlive(s: System)
    ensures !Initialized(s.(process := None))
  {}

  lemma {:induction false} FindInitialized(run: seq<System>, k: nat, n: nat) returns (m: nat)
    requires k < n < |run| && Initialized(run[n])
    ensures FirstInitialized(run, k, m) && m <= n
    decreases n
  {
    hide Initialized;
    if i :| k < i < n && Initialized(run[i]) { m := FindInitialized(run, k, i); } else { m := n; }
  }

  /** A process that is up, or one that owes no marker. */
  ghost predicate Calm(s: System) {
    match s.process
    case None => !s.dirty
    case Some(p) => p.initialized || (!s.dirty && p.stage in {Start, Founding(false), Marking(false), Verifying, Ready})
  }

  lemma CalmStep(s: System, e: Event)
    requires Enabled(s, e) && Calm(s) && (e.Crash? ==> !s.dirty)
    ensures Calm(Next(s, e)) && s.rows <= Next(s, e).rows
    ensures forall i :: |s.rows| <= i < |Next(s, e).rows| ==> Next(s, e).rows[i] != Marker
  {
    hide Denials, CountDenials, LastGenesis;
  }

  lemma {:induction false} CalmUntil(run: seq<System>, events: seq<Event>, j: nat, n: nat)
    requires IsTrace(run, events) && j <= n < |run| && Initialized(run[j])
    requires forall k :: j <= k < n && events[k].Crash? ==> !run[k].dirty
    ensures Calm(run[n]) && !MarkedFrom(run[n], |run[j].rows|) && |run[j].rows| <= |run[n].rows|
    decreases n
  {
    hide Enabled, Next, Calm, MarkedFrom;
    if j == n {
      UpIsCalm(run[j]);
    } else {
      CalmUntil(run, events, j, n - 1);
      assert Enabled(run[n - 1], events[n - 1]);
      CalmStep(run[n - 1], events[n - 1]);
      MarkedGrows(run[n - 1], run[n], |run[j].rows|);
    }
  }

  lemma UpIsCalm(s: System)
    ensures Initialized(s) ==> Calm(s)
    ensures !MarkedFrom(s, |s.rows|)
  {}

  lemma CrashHasIndex(run: seq<System>, events: seq<Event>, j: nat, n: nat)
    requires IsTrace(run, events) && j <= n < |run| && Initialized(run[j]) && MarkedFrom(run[n], |run[j].rows|)
    ensures exists k :: j <= k < n && events[k].Crash? && run[k].dirty
  {
    hide Enabled, Next, MarkedFrom, Initialized;
    if forall k :: j <= k < n ==> events[k].Crash? ==> !run[k].dirty { CalmUntil(run, events, j, n); }
  }

  /**
   Between any two moments at which a process is up, a marker was appended if and only if
   some process in between died with the flag up. Failed appends make no difference.
   */
  lemma MarkedExactly(run: seq<System>, events: seq<Event>, j: nat, n: nat)
    requires IsTrace(run, events) && j <= n < |run| && Initialized(run[j]) && Initialized(run[n])
    ensures MarkedFrom(run[n], |run[j].rows|) <==> exists k :: j <= k < n && events[k].Crash? && run[k].dirty
  {
    hide Enabled, Next, MarkedFrom, Initialized;
    if MarkedFrom(run[n], |run[j].rows|) { CrashHasIndex(run, events, j, n); }
    if k :| j <= k < n && events[k].Crash? && run[k].dirty {
      var m := FindInitialized(run, k, n);
      CrashIsMarkedExactly(run, events, k, m);
      RowsStay(run, events, j, k);
      RowsStay(run, events, m, n);
      MarkStays(run[m], run[n], |run[j].rows|, |run[k].rows|);
    }
  }

  lemma MarkStays(s: System, s': System, base: nat, from: nat)
    requires s.rows <= s'.rows && base <= from && MarkedFrom(s, from)
    ensures MarkedFrom(s', base)
  {
    var i :| from <= i < |s.rows| && s.rows[i] == Marker;
    assert s'.rows[i] == Marker;
  }

  /** Recorded before, not in the chain, and in no queue. */
  ghost predicate Forgotten(s: System, id: nat) {
    && id in s.recorded && Denied(id) !in s.rows
    && (s.process.Some? ==> id !in Denials(s.process.value.queue))
  }

  lemma ForgottenStays(s: System, e: Event, id: nat)
    requires Enabled(s, e) && Forgotten(s, id)
    ensures Forgotten(Next(s, e), id)
  {
    hide CountDenials, LastGenesis;
    if e.Record? { DenialsGrow(s.process.value.queue, Deny(e.id)); }
    if e.Enqueue? { DenialsGrow(s.process.value.queue, e.op); }
  }

  lemma {:induction false} ForgottenUntil(run: seq<System>, events: seq<Event>, k: nat, m: nat, id: nat)
    requires IsTrace(run, events) && k < m < |run| && events[k].Crash?
    requires id in run[k].recorded && Denied(id) !in run[k].rows
    ensures Denied(id) !in run[m].rows && Forgotten(run[m], id)
    decreases m
  {
    hide Enabled, Next;
    assert Enabled(run[m - 1], events[m - 1]);
    if m == k + 1 {
      AfterCrash(run[k], events[k]);
    } else {
      ForgottenUntil(run, events, k, m - 1, id);
      ForgottenStays(run[m - 1], events[m - 1], id);
    }
  }

  lemma RowsOnlyGrow(s: System, e: Event)
    requires Enabled(s, e)
    ensures s.rows <= Next(s, e).rows
  {
    hide CountDenials, LastGenesis, Denials;
  }

  lemma {:induction false} RowsStay(run: seq<System>, events: seq<Event>, k: nat, m: nat)
    requires IsTrace(run, events) && k <= m < |run|
    ensures run[k].rows <= run[m].rows
    decreases m
  {
    hide Enabled, Next;
    if k < m {
      RowsStay(run, events, k, m - 1);
      assert Enabled(run[m - 1], events[m - 1]);
      RowsOnlyGrow(run[m - 1], events[m - 1]);
    }
  }

  /**
   When a denial is covered. After a crash, a denial recorded before it, queued, joined or
   failed, is in the chain or marked if and only if it was in the chain already or the
   flag was up.
   */
  lemma DenialIsCoveredExactly(run: seq<System>, events: seq<Event>, k: nat, n: nat, id: nat)
    requires IsTrace(run, events) && k < |events| && events[k].Crash? && FirstInitialized(run, k, n)
    requires id in run[k].recorded
    ensures (Denied(id) in run[n].rows || MarkedFrom(run[n], |run[k].rows|))
            <==> (Denied(id) in run[k].rows || run[k].dirty)
  {
    hide IsTrace, MarkedFrom;
    CrashIsMarkedExactly(run, events, k, n);
    RowsStay(run, events, k, n);
    if Denied(id) in run[k].rows {
      var i :| 0 <= i < |run[k].rows| && run[k].rows[i] == Denied(id);
      assert run[n].rows[i] == Denied(id);
    } else {
      ForgottenUntil(run, events, k, n, id);
    }
  }

  // --------------------------------------------------------------------------
  // Recovery, from start to finish
  // --------------------------------------------------------------------------

  ghost function Steps(s: System, n: nat): System
    requires s.process.Some?
    requires n > 0 ==> s.process.value.queue != [] && !s.process.value.initialized
    decreases n
  {
    if n == 0 then s
    else
      var s' := InitStep(s, s.process.value);
      if n == 1 || s'.process.value.initialized then s' else Steps(s', n - 1)
  }

  function GenesisOwed(rows: seq<Entry>, model: string): seq<Entry> {
    if LastGenesis(rows) == Some(model) then [] else [Genesis(model)]
  }

  /** Left alone, a started process founds, marks, clears and is ready within five steps. */
  lemma RecoveryCompletes(s: System, p: Process)
    requires s.process == Some(p) && p.queue != [] && !p.initialized && p.stage == Start
    ensures var s' := Steps(s, 5);
            && s'.process == Some(p.(initialized := true, stage := Ready))
            && s'.rows == s.rows + GenesisOwed(s.rows, p.model) + (if s.dirty then [Marker] else [])
            && !s'.dirty && s'.joined == s.joined && s'.recorded == s.recorded
  {
    hide LastGenesis;
    var s1 := InitStep(s, p);
    var s2 := InitStep(s1, s1.process.value);
    var s3 := InitStep(s2, s2.process.value);
    var s4 := InitStep(s3, s3.process.value);
    assert Steps(s, 5) == Steps(s1, 4) == Steps(s2, 3) == Steps(s3, 2);
    assert s.rows + [] == s.rows;
    assert s2.rows == s.rows + GenesisOwed(s.rows, p.model);
  }

  /** The chain's model is the one of its newest genesis. */
  lemma {:induction false} NewestGenesis(rows: seq<Entry>, model: string)
    ensures LastGenesis(rows) == Some(model) <==>
            exists i :: 0 <= i < |rows| && rows[i] == Genesis(model) && forall k :: i < k < |rows| ==> !rows[k].Genesis?
    decreases |rows|
  {
    if rows != [] {
      var n := |rows| - 1;
      NewestGenesis(rows[..n], model);
      if rows[n].Genesis? {
        assert rows[n].model == model ==> rows[n] == Genesis(model);
      } else {
        if i :| 0 <= i < n && rows[..n][i] == Genesis(model) && forall k :: i < k < n ==> !rows[..n][k].Genesis? {
          assert rows[i] == Genesis(model) && forall k :: i < k < |rows| ==> k == n || rows[k] == rows[..n][k];
        }
        if i :| 0 <= i < |rows| && rows[i] == Genesis(model) && forall k :: i < k < |rows| ==> !rows[k].Genesis? {
          assert rows[..n][i] == Genesis(model) && forall k :: i < k < n ==> rows[..n][k] == rows[k];
        }
      }
    }
  }

  /** Whatever was booted before, the recovery leaves the chain on this process's model. */
  lemma RecoveryAnchors(s: System, p: Process)
    requires s.process == Some(p) && p.queue != [] && !p.initialized && p.stage == Start
    ensures LastGenesis(Steps(s, 5).rows) == Some(p.model)
    ensures |Steps(s, 5).rows| <= |s.rows| + 2
  {
    hide Steps;
    RecoveryCompletes(s, p);
    var more := s.rows + GenesisOwed(s.rows, p.model);
    assert LastGenesis(s.rows) != Some(p.model) ==> more[..|more| - 1] == s.rows;
    assert LastGenesis(s.rows) == Some(p.model) ==> more == s.rows;
    assert (more + [Marker])[..|more|] == more && more + [] == more;
  }

  /** An operation that is no denial, left alone in an initialised process: it lands what it has to land, and is over. */
  lemma PlainOperationCompletes(s: System, p: Process)
    requires s.process == Some(p) && p.initialized && p.queue != [] && !p.queue[0].Deny? && p.stage == Start
    ensures var looked := BodyStep(s, p);
            looked == With(s, p.(stage := Ready))
            && (p.queue[0].Ensure? ==> BodyStep(looked, looked.process.value) == With(s, Finished(p)))
            && (p.queue[0].Append? ==>
                  var begun := BodyStep(looked, looked.process.value);
                  && begun == With(s, p.(stage := Appending))
                  && BodyStep(begun, begun.process.value) ==
                     With(s.(rows := s.rows + [Decided(p.queue[0].id)]), Finished(p)))
  {}

  /** And what is left of it when the stored chain does not verify: all but being ready. */
  lemma RecoveryUntilVerified(s: System, p: Process)
    requires s.process == Some(p) && p.queue != [] && !p.initialized && p.stage == Start
    ensures var s' := Steps(s, if s.dirty then 4 else 3);
            && s'.process == Some(p.(stage := Verifying))
            && s'.rows == s.rows + GenesisOwed(s.rows, p.model) + (if s.dirty then [Marker] else [])
            && !s'.dirty && s'.joined == s.joined && s'.recorded == s.recorded
  {
    hide LastGenesis;
    var s1 := InitStep(s, p);
    var s2 := InitStep(s1, s1.process.value);
    var s3 := InitStep(s2, s2.process.value);
    var n := if s.dirty then 4 else 3;
    assert Steps(s, n) == Steps(s1, n - 1) == Steps(s2, n - 2) == Steps(s3, n - 3);
    assert s.rows + [] == s.rows;
    assert s2.rows == s.rows + GenesisOwed(s.rows, p.model);
  }

  // --------------------------------------------------------------------------
  // A marker means what it says
  // --------------------------------------------------------------------------

  ghost predicate Clean(s: System) { Marker !in s.rows && Calm(s) }

  lemma CleanStep(s: System, e: Event)
    requires Enabled(s, e) && Clean(s) && (e.Crash? ==> !s.dirty)
    ensures Clean(Next(s, e))
  {
    hide Enabled, Next, Calm;
    CalmStep(s, e);
  }

  lemma {:induction false} CleanRun(run: seq<System>, events: seq<Event>, n: nat)
    requires IsRun(run, events) && n < |run|
    requires forall k :: 0 <= k < n && events[k].Crash? ==> !run[k].dirty
    ensures Clean(run[n])
  {
    hide Next, Enabled;
    if n > 0 {
      CleanRun(run, events, n - 1);
      assert Enabled(run[n - 1], events[n - 1]);
      CleanStep(run[n - 1], events[n - 1]);
    }
  }

  /** No marker without a process that died while the bracket was open. */
  lemma MarkerMeansCrash(run: seq<System>, events: seq<Event>, n: nat)
    requires IsRun(run, events) && n < |run| && Marker in run[n].rows
    ensures exists k :: 0 <= k < n && events[k].Crash? && run[k].dirty
  {
    if forall k :: 0 <= k < n && events[k].Crash? ==> !Dirty(run[k]) { CleanRun(run, events, n); }
  }

  predicate Dirty(s: System) { s.dirty }

  // --------------------------------------------------------------------------
  // What the bracket does not cover
  // --------------------------------------------------------------------------

  function Last(run: seq<System>): System
    requires run != []
  {
    run[|run| - 1]
  }

  lemma Extend(run: seq<System>, events: seq<Event>, e: Event) returns (run': seq<System>, events': seq<Event>)
    requires IsTrace(run, events) && Enabled(Last(run), e)
    ensures run' != [] && IsTrace(run', events') && run'[0] == run[0] && events' == events + [e]
    ensures Last(run') == Next(Last(run), e)
  {
    hide Enabled, Next;
    run', events' := run + [Next(Last(run), e)], events + [e];
  }

  lemma NoSteps(s: System)
    ensures IsTrace([s], [])
  {}

  lemma DenialRecorded() returns (run: seq<System>, events: seq<Event>)
    ensures run != [] && IsTrace(run, events) && run[0] == Empty() && events == [Boot(""), Record(0)]
    ensures Last(run) == System([], false, Some(Process("", false, 1, false, [Deny(0)], Start)), {0}, map[])
  {
    hide IsTrace;
    run, events := [Empty()], [];
    NoSteps(Empty());
    run, events := Extend(run, events, Boot(""));
    run, events := Extend(run, events, Record(0));
    assert [] + [Deny(0)] == [Deny(0)] && {} + {0} == {0};
  }

  /** The four steps of a clean start on an empty table. */
  lemma CleanStart(run: seq<System>, events: seq<Event>) returns (run': seq<System>, events': seq<Event>)
    requires run != [] && IsTrace(run, events) && Last(run).process.Some? && Last(run).rows == [] && !Last(run).dirty
    requires var p := Last(run).process.value; !p.initialized && p.stage == Start && p.queue != []
    ensures run' != [] && IsTrace(run', events') && run'[0] == run[0]
    ensures events' == events + [Step, Step, Step, Step]
    ensures var p := Last(run).process.value;
            Last(run') == With(Last(run), p.(initialized := true, stage := Ready)).(rows := [Genesis(p.model)])
  {
    hide IsTrace, Denials, CountDenials;
    run', events' := Extend(run, events, Step);
    run', events' := Extend(run', events', Step);
    run', events' := Extend(run', events', Step);
    run', events' := Extend(run', events', Step);
    assert Last(run).rows + [Genesis(Last(run).process.value.model)] == [Genesis(Last(run).process.value.model)];
  }

  /** A denial still waiting for its bracket can vanish in a crash without a marker. */
  lemma QueuedDenialCanBeLost() returns (run: seq<System>, events: seq<Event>)
    ensures run != [] && IsRun(run, events)
    ensures var s := Last(run);
            && 0 in s.recorded && s.process.Some? && s.process.value.initialized
            && Denied(0) !in s.rows && Marker !in s.rows
            && 0 !in Denials(s.process.value.queue)
  {
    hide IsTrace;
    run, events := DenialRecorded();
    run, events := Extend(run, events, Crash);
    run, events := Extend(run, events, Boot(""));
    run, events := Extend(run, events, Enqueue(Ensure));
    assert [] + [Ensure] == [Ensure];
    run, events := CleanStart(run, events);
  }

  /** An append that fails without the process dying still closes the bracket, unmarked. */
  lemma FailedAppendIsUnmarked() returns (run: seq<System>, events: seq<Event>)
    ensures run != [] && IsTrace(run, events) && run[0] == Empty()
    ensures var s := Last(run);
            && 0 in s.joined && !Safe(s, 0) && !s.dirty
            && s.process.Some? && s.process.value.initialized && s.process.value.queue == []
  {
    hide IsTrace;
    run, events := DenialRecorded();
    run, events := CleanStart(run, events);
    run, events := Extend(run, events, Step);
    run, events := Extend(run, events, Fail);
    run, events := Extend(run, events, Step);
    run, events := Extend(run, events, Step);
  }
}
