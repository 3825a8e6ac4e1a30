/**
 Reclaiming a stale state-machine lock. A process that starts looks at the lock and the
 owner record beside it, clears what is provably stale, records itself, and opens the
 state machine if no lock is left; one that dies leaves both behind.

 A process is named by its pid namespace, its pid and its start time. Pids are reused,
 and so are namespace names.
 */
module StateLock {
  import opened Wrappers

  datatype Process = Process(ns: string, pid: nat, start: string)

  /** The record as the file holds it; older releases wrote a host and no namespace. */
  datatype Owner = Owner(
    pid: int,
    node: Option<string>,
    ns: Option<string>,
    host: Option<string>,
    start: Option<string>)

  datatype Reason = OwnerGone | NoOwnerRecord | Self | NamespaceGone | OwnerAlive | ForeignNode

  datatype Outcome = Claimed | Cleared(reason: Reason) | Kept(reason: Reason) | Failed

  /** What a starting process can see and do; `live` are the running processes of its namespace. */
  datatype View = View(
    me: Process,
    node: string,
    host: string,
    live: set<Process>,
    startsReadable: bool,
    removable: bool,
    writable: bool)

  // --------------------------------------------------------------------------
  // The decision
  // --------------------------------------------------------------------------

  /** A record that names neither a namespace nor a host is no record. */
  function ReadOwner(file: Option<Owner>): Option<Owner> {
    if file.Some? && file.value.ns.None? && file.value.host.None? then None else file
  }

  predicate Runs(v: View, pid: int) { exists p :: p in v.live && p.pid == pid }

  ghost predicate StartedAt(v: View, pid: int, start: string) {
    exists p :: p in v.live && p.pid == pid && p.start == start
  }

  ghost predicate OwnerStillRunning(v: View, o: Owner) {
    Runs(v, o.pid) && (o.start.Some? && v.startsReadable ==> StartedAt(v, o.pid, o.start.value))
  }

  predicate InterpretableHere(v: View, o: Owner) {
    if o.ns.Some? then o.ns.value == v.me.ns else o.host == Some(v.host)
  }

  ghost function Verdict(v: View, lock: bool, file: Option<Owner>): Outcome {
    if !lock then Claimed
    else match ReadOwner(file)
         case None => if v.removable then Cleared(NoOwnerRecord) else Failed
         case Some(o) =>
           if o.node.Some? && o.node.value != v.node then Kept(ForeignNode)
           else if !InterpretableHere(v, o) then (if v.removable then Cleared(NamespaceGone) else Failed)
           else if o.pid != v.me.pid && OwnerStillRunning(v, o) then Kept(OwnerAlive)
           else if !v.removable then Failed
           else Cleared(if o.pid == v.me.pid then Self else OwnerGone)
  }

  predicate Passes(o: Outcome) { o.Claimed? || o.Cleared? }

  function OwnRecord(v: View): Owner {
    Owner(v.me.pid, Some(v.node), Some(v.me.ns), None, if v.startsReadable then Some(v.me.start) else None)
  }

  function RecordAfter(v: View, outcome: Outcome, file: Option<Owner>): Option<Owner> {
    if Passes(outcome) && v.writable then Some(OwnRecord(v)) else file
  }

  /** A usable record that names a node, and not this one. */
  predicate WrittenElsewhere(file: Option<Owner>, node: string) {
    && file.Some? && (file.value.ns.Some? || file.value.host.Some?)
    && file.value.node.Some? && file.value.node.value != node
  }

  class DataDir {
    var lock: bool
    var owner: Option<Owner>

    constructor (lock: bool, owner: Option<Owner>)
      ensures this.lock == lock && this.owner == owner
    {
      this.lock, this.owner := lock, owner;
    }

    method WriteOwner(v: View)
      modifies this`owner
      ensures owner == if v.writable then Some(OwnRecord(v)) else old(owner)
    {
      if v.writable { owner := Some(OwnRecord(v)); }
    }

    method Reclaim(v: View) returns (outcome: Outcome)
      modifies this
      ensures outcome == Verdict(v, old(lock), old(owner))
      ensures owner == RecordAfter(v, outcome, old(owner))
      ensures lock == (old(lock) && !Passes(outcome))
      ensures old(lock) && WrittenElsewhere(old(owner), v.node) ==>
                outcome == Kept(ForeignNode) && lock == old(lock) && owner == old(owner)
    {
      if !lock {
        WriteOwner(v);
        return Claimed;
      }
      var known := ReadOwner(owner);
      if known.None? {
        if !v.removable { return Failed; }
        lock := false;
        WriteOwner(v);
        return Cleared(NoOwnerRecord);
      }
      var o := known.value;
      if o.node.Some? && o.node.value != v.node { return Kept(ForeignNode); }
      if !InterpretableHere(v, o) {
        if !v.removable { return Failed; }
        lock := false;
        WriteOwner(v);
        return Cleared(NamespaceGone);
      }
      if o.pid != v.me.pid {
        var running := IsRunning(v, o);
        if running { return Kept(OwnerAlive); }
      }
      if !v.removable { return Failed; }
      lock := false;
      WriteOwner(v);
      return Cleared(if o.pid == v.me.pid then Self else OwnerGone);
    }
  }

  method IsRunning(v: View, o: Owner) returns (running: bool)
    ensures running <==> OwnerStillRunning(v, o)
  {
    var alive := exists p :: p in v.live && p.pid == o.pid;
    if !alive { return false; }
    if o.start.None? { return true; }
    if !v.startsReadable { return true; }
    return exists p :: p in v.live && p.pid == o.pid && p.start == o.start.value;
  }

  // --------------------------------------------------------------------------
  // Starts, deaths, and recreated containers
  // --------------------------------------------------------------------------

  /** `holders` are the live processes that hold the state machine open. */
  datatype System = System(
    ns: string,
    host: string,
    live: set<Process>,
    used: set<Process>,
    lock: bool,
    owner: Option<Owner>,
    holders: set<Process>)

  datatype Event =
    | Spawn(p: Process)                                    // any process of the namespace
    | Start(v: View)                                       // one of ours: reclaim, then open
    | Die(p: Process)                                      // nothing is released
    | Release(p: Process)                                  // an orderly stop removes the lock
    | Recreate(ns: string, host: string)                   // every process of the old namespace is dead

  ghost predicate Enabled(s: System, e: Event) {
    match e
    case Spawn(p) => p.ns == s.ns && p.pid > 0 && p !in s.used && forall q :: q in s.live ==> q.pid != p.pid
    case Start(v) => v.me in s.live && v.live == s.live && v.host == s.host
    case Die(p) => p in s.live
    case Release(p) => p in s.holders
    case Recreate(_, _) => true
  }

  /** The open that follows succeeds exactly when no lock stands in its way. */
  ghost function Started(s: System, v: View): System {
    var outcome := Verdict(v, s.lock, s.owner);
    var owner := RecordAfter(v, outcome, s.owner);
    if Passes(outcome) then s.(lock := true, owner := owner, holders := s.holders + {v.me}) else s.(owner := owner)
  }

  ghost function Next(s: System, e: Event): System
    requires Enabled(s, e)
  {
    match e
    case Spawn(p) => s.(live := s.live + {p}, used := s.used + {p})
    case Start(v) => Started(s, v)
    case Die(p) => s.(live := s.live - {p}, holders := s.holders - {p})
    case Release(p) => s.(live := s.live - {p}, holders := s.holders - {p}, lock := false)
    case Recreate(ns, host) => s.(ns := ns, host := host, live := {}, holders := {})
  }

  /** The record speaks of `p`, in its present or its older form. */
  ghost predicate Names(s: System, o: Owner, p: Process) {
    && o.pid == p.pid
    && (if o.ns.Some? then o.ns.value == s.ns else o.host == Some(s.host))
    && (o.start.Some? ==> o.start.value == p.start)
  }

  ghost predicate Inv(s: System) {
    && s.holders <= s.live <= s.used
    && (forall p :: p in s.live ==> p.ns == s.ns)
    && (forall p, q :: p in s.live && q in s.live && p.pid == q.pid ==> p == q)
    && (forall p :: p in s.holders ==> s.lock && s.owner.Some? && Names(s, s.owner.value, p))
  }

  /** Starts one at a time. */
  ghost predicate IsTrace(run: seq<System>, events: seq<Event>) {
    && |run| == |events| + 1
    && forall i :: 0 <= i < |events| ==> Enabled(run[i], events[i]) && run[i + 1] == Next(run[i], events[i])
  }

  /** From a sound state, with owner records written. */
  ghost predicate IsRun(run: seq<System>, events: seq<Event>) {
    && IsTrace(run, events) && Inv(run[0])
    && forall i :: 0 <= i < |events| ==> events[i].Start? ==> events[i].v.writable
  }

  lemma OneHolder(s: System, p: Process, q: Process)
    requires Inv(s) && p in s.holders && q in s.holders
    ensures p == q
  {}

  /** Whoever starts beside a live holder leaves the lock alone, or is that holder. */
  lemma HolderIsSafe(s: System, v: View, h: Process)
    requires Inv(s) && Enabled(s, Start(v)) && h in s.holders
    ensures Passes(Verdict(v, s.lock, s.owner)) ==> v.me == h
  {
    var o := s.owner.value;
    assert Names(s, o, h);
    assert h in v.live && h.pid == o.pid;
  }

  lemma StepKeepsInv(s: System, e: Event)
    requires Inv(s) && Enabled(s, e) && (e.Start? ==> e.v.writable)
    ensures Inv(Next(s, e))
  {
    if e.Start? {
      hide Verdict;
      forall h | h in s.holders ensures Passes(Verdict(e.v, s.lock, s.owner)) ==> e.v.me == h {
        HolderIsSafe(s, e.v, h);
      }
    }
  }

  lemma {:induction false} RunKeepsInv(run: seq<System>, events: seq<Event>, n: nat)
    requires IsRun(run, events) && n < |run|
    ensures Inv(run[n])
  {
    hide Inv, Enabled, Next;
    if n > 0 {
      RunKeepsInv(run, events, n - 1);
      assert Enabled(run[n - 1], events[n - 1]) && (events[n - 1].Start? ==> events[n - 1].v.writable);
      StepKeepsInv(run[n - 1], events[n - 1]);
    }
  }

  /** At most one live process ever holds the state machine. */
  lemma AtMostOneOpener(run: seq<System>, events: seq<Event>, n: nat, p: Process, q: Process)
    requires IsRun(run, events) && n < |run| && p in run[n].holders && q in run[n].holders
    ensures p == q && p in run[n].live && run[n].lock
  {
    RunKeepsInv(run, events, n);
    OneHolder(run[n], p, q);
  }

  // --------------------------------------------------------------------------
  // What an outcome says
  // --------------------------------------------------------------------------

  /** The wrong volume: a start under another node's record changes nothing at all. */
  lemma ForeignVolumeIsKept(s: System, v: View)
    requires Enabled(s, Start(v)) && s.lock && WrittenElsewhere(s.owner, v.node)
    ensures Verdict(v, s.lock, s.owner) == Kept(ForeignNode) && Next(s, Start(v)) == s
  {}

  /** Nothing is removed, recorded or opened, however many other nodes start. */
  lemma {:induction false} ForeignStartsChangeNothing(run: seq<System>, events: seq<Event>, i: nat, j: nat)
    requires IsTrace(run, events) && i <= j < |run| && run[i].lock
    requires forall n :: i <= n < j ==> !events[n].Release?
    requires forall n :: i <= n < j && events[n].Start? ==> WrittenElsewhere(run[i].owner, events[n].v.node)
    ensures run[j].lock && run[j].owner == run[i].owner && run[j].holders <= run[i].holders
    decreases j
  {
    hide Verdict, WrittenElsewhere;
    if i < j {
      ForeignStartsChangeNothing(run, events, i, j - 1);
      assert Enabled(run[j - 1], events[j - 1]);
      if events[j - 1].Start? { ForeignVolumeIsKept(run[j - 1], events[j - 1].v); }
    }
  }

  /** The record `p` writes on `node`: enough to find it again, or to know that it is gone. */
  function RecordOf(p: Process, node: string): Owner { Owner(p.pid, Some(node), Some(p.ns), None, Some(p.start)) }

  /** A start that gets in leaves the record of itself, and puts the lock back. */
  lemma StartRecordsItself(s: System, v: View)
    requires Enabled(s, Start(v)) && Passes(Verdict(v, s.lock, s.owner)) && v.writable && v.startsReadable
    ensures Next(s, Start(v)) == s.(lock := true, owner := Some(RecordOf(v.me, v.node)), holders := s.holders + {v.me})
  {}

  /** Against the record of `p` on the same node, each outcome is a fact about `p`. */
  lemma OutcomeExact(s: System, v: View, p: Process)
    requires Inv(s) && Enabled(s, Start(v)) && v.startsReadable && v.removable
    requires s.lock && s.owner == Some(RecordOf(p, v.node))
    ensures var outcome := Verdict(v, s.lock, s.owner);
            && (outcome == Kept(OwnerAlive) <==> p in s.live && p != v.me)
            && (outcome == Cleared(Self) <==> p.ns == s.ns && p.pid == v.me.pid)
            && (outcome == Cleared(OwnerGone) <==> p.ns == s.ns && p.pid != v.me.pid && p !in s.live)
            && (outcome == Cleared(NamespaceGone) <==> p.ns != s.ns)
  {}

  /** Where no start time can be compared the pid alone decides, in the namespace or on the host it was issued. */
  lemma PidAloneDecides(s: System, v: View, o: Owner)
    requires Inv(s) && Enabled(s, Start(v)) && v.removable && s.lock && s.owner == Some(o)
    requires o.node.None? || o.node == Some(v.node)
    requires o.start.None? || !v.startsReadable
    requires o.ns == Some(s.ns) || (o.ns.None? && o.host == Some(s.host))
    ensures Verdict(v, s.lock, s.owner) == Kept(OwnerAlive) <==> exists q :: q in s.live && q.pid == o.pid && q != v.me
    ensures !Verdict(v, s.lock, s.owner).Kept? ==>
              Verdict(v, s.lock, s.owner) == Cleared(if o.pid == v.me.pid then Self else OwnerGone)
  {}

  /** An older record of another host is of no namespace that can still hold anything. */
  lemma OtherHostIsGone(v: View, o: Owner)
    requires v.removable && o.ns.None? && o.host.Some? && o.host.value != v.host && (o.node.None? || o.node == Some(v.node))
    ensures Verdict(v, true, Some(o)) == Cleared(NamespaceGone)
  {}

  /** A lock with no usable record is cleared, and no lock at all is claimed. */
  lemma NoRecordIsCleared(v: View, file: Option<Owner>)
    requires file.Some? ==> file.value.ns.None? && file.value.host.None?
    ensures v.removable ==> Verdict(v, true, file) == Cleared(NoOwnerRecord)
    ensures Verdict(v, false, file) == Claimed
  {}

  /** After an orderly stop any node gets in, whatever the record it left. */
  lemma ReleasedIsClaimed(s: System, p: Process, v: View)
    requires Enabled(s, Release(p)) && Enabled(Next(s, Release(p)), Start(v))
    ensures Verdict(v, Next(s, Release(p)).lock, Next(s, Release(p)).owner) == Claimed
    ensures v.me in Next(Next(s, Release(p)), Start(v)).holders && p !in Next(s, Release(p)).live
  {}

  /** A start fails exactly where it would clear a lock it cannot remove. */
  lemma FailsWhereItWouldClear(v: View, lock: bool, file: Option<Owner>)
    requires !v.removable
    ensures var able := Verdict(v.(removable := true), lock, file);
            Verdict(v, lock, file) == if able.Cleared? then Failed else able
  {}

  // --------------------------------------------------------------------------
  // A dead owner's lock
  // --------------------------------------------------------------------------

  /**
   The record names one process exactly. Nobody running is that process, so a start of
   the same node clears the lock, whoever has the old pid by now.
   */
  lemma DeadOwnerIsCleared(s: System, v: View, p: Process, node: string)
    requires Enabled(s, Start(v)) && v.startsReadable && v.removable && v.writable && v.node == node
    requires s.owner == Some(RecordOf(p, node))
    requires p !in s.live && forall q :: q in s.live ==> q.ns == s.ns
    ensures Passes(Verdict(v, s.lock, s.owner)) && v.me in Started(s, v).holders
  {}

  /** `p` wrote the record on `node` and is dead. */
  ghost predicate LeftBy(s: System, p: Process, node: string) {
    && s.owner == Some(RecordOf(p, node))
    && p in s.used && p !in s.live
  }

  lemma LeftStays(s: System, e: Event, p: Process, node: string)
    requires Enabled(s, e) && !e.Start? && LeftBy(s, p, node)
    ensures LeftBy(Next(s, e), p, node)
  {}

  lemma {:induction false} LeftUntilNextStart(
      run: seq<System>, events: seq<Event>, k: nat, n: nat, p: Process, node: string)
    requires IsRun(run, events) && k <= n < |run| && LeftBy(run[k], p, node)
    requires forall i :: k <= i < n ==> !events[i].Start?
    ensures LeftBy(run[n], p, node)
    decreases n
  {
    hide Inv, Enabled, Next, LeftBy;
    if n > k {
      LeftUntilNextStart(run, events, k, n - 1, p, node);
      assert Enabled(run[n - 1], events[n - 1]);
      LeftStays(run[n - 1], events[n - 1], p, node);
    }
  }

  /** The next start of the same node after an owner's death holds the state machine. */
  lemma NextStartRecovers(run: seq<System>, events: seq<Event>, k: nat, n: nat, p: Process, node: string)
    requires IsRun(run, events) && k <= n < |events| && LeftBy(run[k], p, node)
    requires forall i :: k <= i < n ==> !events[i].Start?
    requires events[n].Start? && events[n].v.node == node && events[n].v.startsReadable && events[n].v.removable
    ensures events[n].v.me in run[n + 1].holders
  {
    hide Verdict;
    RunKeepsInv(run, events, n);
    LeftUntilNextStart(run, events, k, n, p, node);
    assert Enabled(run[n], events[n]) && events[n].v.writable;
    DeadOwnerIsCleared(run[n], events[n].v, p, node);
  }

  /**
   When a second opener gets in. After a first start takes the free state machine, another
   process's start holds it too if and only if the first could not write its record and
   the record it left standing does not stop the second.
   */
  lemma SecondOpenerExact(s: System, v: View, w: View)
    requires Inv(s) && s.holders == {} && Enabled(s, Start(v)) && Enabled(s, Start(w)) && w.me != v.me
    requires Passes(Verdict(v, s.lock, s.owner))
    ensures Enabled(Started(s, v), Start(w))
    ensures {v.me, w.me} <= Started(Started(s, v), w).holders <==> !v.writable && Passes(Verdict(w, true, s.owner))
  {
    hide Verdict;
    var s' := Started(s, v);
    if v.writable {
      StepKeepsInv(s, Start(v));
      HolderIsSafe(s', w, v.me);
    }
  }

  /** Such a pair: the record still names a dead owner, so the second clears the first's lock. */
  lemma UnwrittenRecordAllowsTwo(s: System, v: View, w: View, dead: Process)
    requires Inv(s) && s.holders == {} && s.lock && LeftBy(s, dead, v.node) && dead.ns == s.ns
    requires Enabled(s, Start(v)) && v.startsReadable && v.removable && !v.writable
    requires Enabled(s, Start(w)) && w.startsReadable && w.removable && w.node == v.node && w.me != v.me
    ensures Enabled(Started(s, v), Start(w))
    ensures {v.me, w.me} <= Started(Started(s, v), w).holders
  {}
}
