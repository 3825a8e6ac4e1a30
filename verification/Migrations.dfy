/**
 Migration lists, the plan an operator is shown, and racing runners.

 A runner reads what is recorded once, then commits one transaction per migration: its
 statements together with the insert of its version, the table's primary key. Runners
 of different releases carry lists that only extend one another.
 */
module Migrations {
  /** `statements` stands for the work committed together with the version. */
  datatype Migration = Migration(version: int, name: string, statements: seq<string>)

  ghost predicate Ascending(list: seq<Migration>) {
    forall i, j :: 0 <= i < j < |list| ==> list[i].version < list[j].version
  }

  function Versions(list: seq<Migration>): (r: seq<int>)
    ensures |r| == |list| && forall i :: 0 <= i < |r| ==> r[i] == list[i].version
  {
    seq(|list|, i requires 0 <= i < |list| => list[i].version)
  }

  /** The highest of some versions; 0 for none. */
  function Highest(versions: seq<int>): (r: int)
    ensures versions == [] ==> r == 0
    ensures versions != [] ==> r in versions && forall v :: v in versions ==> v <= r
  {
    if versions == [] then 0
    else if |versions| == 1 then versions[0]
    else
      var rest := Highest(versions[1..]);
      assert forall v :: v in versions ==> v == versions[0] || v in versions[1..];
      if versions[0] > rest then versions[0] else rest
  }

  /** What a schema apply would do, given the highest version recorded. */
  function Pending(version: int, list: seq<Migration>): seq<Migration> {
    if list == [] then []
    else (if list[0].version > version then [list[0]] else []) + Pending(version, list[1..])
  }

  lemma {:induction false} PendingOfTail(version: int, list: seq<Migration>, k: nat)
    requires k <= |list|
    requires forall i :: 0 <= i < |list| ==> (i < k <==> list[i].version <= version)
    ensures Pending(version, list) == list[k..]
    decreases |list|
  {
    if list != [] {
      var rest, j := list[1..], if k == 0 then 0 else k - 1;
      forall i | 0 <= i < |rest| ensures i < j <==> rest[i].version <= version { assert rest[i] == list[i + 1]; }
      PendingOfTail(version, rest, j);
      assert k == 0 ==> list[k..] == [list[0]] + rest[j..];
      assert k > 0 ==> list[k..] == rest[j..];
    }
  }

  /** The recorded versions are the first `k` of the list every release extends. */
  ghost predicate IsPrefix(all: seq<Migration>, recorded: seq<int>) {
    |recorded| <= |all| && recorded == Versions(all[..|recorded|])
  }

  lemma PrefixHas(all: seq<Migration>, recorded: seq<int>, i: nat)
    requires Ascending(all) && IsPrefix(all, recorded) && i < |all|
    ensures all[i].version in recorded <==> i < |recorded|
  {
    if i < |recorded| { assert recorded[i] == all[i].version; }
  }

  lemma PrefixHighest(all: seq<Migration>, recorded: seq<int>)
    requires Ascending(all) && IsPrefix(all, recorded) && 0 < |recorded| <= |all|
    ensures Highest(recorded) == all[|recorded| - 1].version
  {
    hide IsPrefix;
    var last := all[|recorded| - 1].version;
    PrefixAt(all, recorded, |recorded| - 1);
    forall v | v in recorded ensures v <= last {
      var i :| 0 <= i < |recorded| && recorded[i] == v;
      PrefixAt(all, recorded, i);
    }
  }

  lemma PrefixAt(all: seq<Migration>, recorded: seq<int>, i: nat)
    requires IsPrefix(all, recorded) && i < |recorded|
    ensures recorded[i] == all[i].version && recorded[i] in recorded
  {}

  lemma InOrder(all: seq<Migration>, i: nat, j: nat)
    requires Ascending(all) && i <= j < |all|
    ensures all[i].version <= all[j].version && (i < j ==> all[i].version < all[j].version)
  {}

  lemma PendingIsTail(all: seq<Migration>, recorded: seq<int>, n: nat)
    requires Ascending(all) && IsPrefix(all, recorded) && n <= |all|
    requires forall i :: 0 <= i < |all| ==> all[i].version >= 1
    ensures Pending(Highest(recorded), all[..n]) == if |recorded| <= n then all[|recorded|..n] else []
  {
    hide IsPrefix, Pending, Ascending, Highest;
    PrefixLength(all, recorded);
    var k := if |recorded| <= n then |recorded| else n;
    if recorded != [] { PrefixHighest(all, recorded); }
    var list := all[..n];
    forall i | 0 <= i < n ensures i < k <==> list[i].version <= Highest(recorded) {
      if recorded != [] {
        if i < |recorded| { InOrder(all, i, |recorded| - 1); } else { InOrder(all, |recorded| - 1, i); }
      }
    }
    PendingOfTail(Highest(recorded), list, k);
    assert list[k..] == all[k..n];
  }

  /** The plan is exactly the unrecorded migrations, in order, for any release's list. */
  lemma PendingIsExact(all: seq<Migration>, recorded: seq<int>, n: nat, i: nat)
    requires Ascending(all) && IsPrefix(all, recorded) && i < n <= |all|
    requires forall i :: 0 <= i < |all| ==> all[i].version >= 1
    ensures all[i] in Pending(Highest(recorded), all[..n]) <==> all[i].version !in recorded
  {
    hide IsPrefix, Pending, Ascending, Highest;
    PendingIsTail(all, recorded, n);
    PrefixHas(all, recorded, i);
    var plan := Pending(Highest(recorded), all[..n]);
    if i >= |recorded| {
      assert plan[i - |recorded|] == all[i];
    } else if all[i] in plan {
      var j :| 0 <= j < |plan| && plan[j] == all[i];
      InOrder(all, i, |recorded| + j);
    }
  }

  lemma PrefixLength(all: seq<Migration>, recorded: seq<int>)
    requires IsPrefix(all, recorded)
    ensures |recorded| <= |all|
  {}
}

/** Any number of runners at once; each may stop for good between any two transactions. */
module MigrationRuns {
  import opened Migrations

  /** `seen` is what the runner read, `next` the list position it is at. */
  datatype Runner = Runner(size: nat, forwardOnly: bool, phase: Phase)

  datatype Phase =
    | Fresh
    | Working(seen: seq<int>, next: nat)
    | Finished
    | OutOfOrder
    | Stopped            // lost a race, failed, or died

  datatype System = System(recorded: seq<int>, runners: map<nat, Runner>)

  datatype Event =
    | Launch(id: nat, size: nat, forwardOnly: bool)
    | Read(id: nat)
    | Advance(id: nat)
    | Stop(id: nat)

  ghost predicate Enabled(all: seq<Migration>, s: System, e: Event) {
    match e
    case Launch(id, size, _) => id !in s.runners && size <= |all|
    case Read(id) => id in s.runners && s.runners[id].phase.Fresh?
    case Advance(id) =>
      id in s.runners && s.runners[id].phase.Working? && s.runners[id].phase.next <= s.runners[id].size <= |all|
    case Stop(id) => id in s.runners && !s.runners[id].phase.Finished?
  }

  function Put(s: System, id: nat, phase: Phase): System
    requires id in s.runners
  {
    s.(runners := s.runners[id := s.runners[id].(phase := phase)])
  }

  /** The loop body: skip, refuse, commit with the recording insert, or roll back whole. */
  function Advanced(all: seq<Migration>, s: System, id: nat): System
    requires id in s.runners && s.runners[id].phase.Working?
    requires s.runners[id].phase.next <= s.runners[id].size <= |all|
  {
    var r := s.runners[id];
    var p := r.phase;
    if p.next == r.size then Put(s, id, Finished)
    else
      var version := all[p.next].version;
      if version in p.seen then Put(s, id, p.(next := p.next + 1))
      else if r.forwardOnly && version <= Highest(p.seen) then Put(s, id, OutOfOrder)
      else if version in s.recorded then Put(s, id, Stopped)
      else Put(s, id, p.(next := p.next + 1)).(recorded := s.recorded + [version])
  }

  ghost function Next(all: seq<Migration>, s: System, e: Event): System
    requires Enabled(all, s, e)
  {
    match e
    case Launch(id, size, forwardOnly) => s.(runners := s.runners[id := Runner(size, forwardOnly, Fresh)])
    case Read(id) => Put(s, id, Working(s.recorded, 0))
    case Advance(id) => Advanced(all, s, id)
    case Stop(id) => Put(s, id, Stopped)
  }

  ghost predicate GoodList(all: seq<Migration>) {
    Ascending(all) && forall i :: 0 <= i < |all| ==> all[i].version >= 1
  }

  ghost predicate IsRun(all: seq<Migration>, run: seq<System>, events: seq<Event>) {
    && |run| == |events| + 1 && run[0] == System([], map[])
    && forall i :: 0 <= i < |events| ==> Enabled(all, run[i], events[i]) && run[i + 1] == Next(all, run[i], events[i])
  }

  ghost predicate RunnerOk(all: seq<Migration>, s: System, r: Runner) {
    && r.size <= |all|
    && match r.phase
       case Working(seen, next) => IsPrefix(all, seen) && seen <= s.recorded && next <= r.size && next <= |s.recorded|
       case Finished => r.size <= |s.recorded|
       case OutOfOrder => false
       case _ => true
  }

  ghost predicate Inv(all: seq<Migration>, s: System) {
    IsPrefix(all, s.recorded) && forall id :: id in s.runners ==> RunnerOk(all, s, s.runners[id])
  }

  lemma AdvanceKeepsInv(all: seq<Migration>, s: System, id: nat)
    requires GoodList(all) && Inv(all, s) && Enabled(all, s, Advance(id))
    ensures Inv(all, Advanced(all, s, id)) && s.recorded <= Advanced(all, s, id).recorded
  {
    hide IsPrefix;
    var r := s.runners[id];
    assert RunnerOk(all, s, r);
    if r.phase.next < r.size {
      PrefixHas(all, r.phase.seen, r.phase.next);
      PrefixHas(all, s.recorded, r.phase.next);
      PrefixLength(all, r.phase.seen);
      if r.phase.seen != [] { PrefixHighest(all, r.phase.seen); }
      if |s.recorded| == r.phase.next { PrefixGrows(all, s.recorded); }
      assert s.recorded <= Advanced(all, s, id).recorded;
      forall k | k in s.runners && k != id ensures RunnerOk(all, Advanced(all, s, id), s.runners[k]) {
        assert RunnerOk(all, s, s.runners[k]);
      }
    }
  }

  /**
   A runner's next step, told by how far the record has got: past its plan it finishes;
   what it saw recorded it passes by; what somebody recorded since stops it; and only
   where the record ends does it commit the version there and go on.
   */
  lemma AdvanceIsCas(all: seq<Migration>, s: System, id: nat)
    requires GoodList(all) && Inv(all, s) && Enabled(all, s, Advance(id))
    ensures var r, s' := s.runners[id], Advanced(all, s, id);
            var n, seen := r.phase.next, |r.phase.seen|;
            && (n < r.size && n >= |s.recorded| ==> n == |s.recorded|)
            && s'.recorded == (if n < r.size && n == |s.recorded| then s.recorded + [all[n].version] else s.recorded)
            && s'.runners == s.runners[id := r.(phase :=
                 if n == r.size then Finished
                 else if n < seen || n == |s.recorded| then Working(r.phase.seen, n + 1)
                 else Stopped)]
  {
    hide IsPrefix;
    var r := s.runners[id];
    assert RunnerOk(all, s, r);
    PrefixLength(all, r.phase.seen);
    PrefixLength(all, s.recorded);
    if r.phase.next < r.size {
      PrefixHas(all, r.phase.seen, r.phase.next);
      PrefixHas(all, s.recorded, r.phase.next);
      if r.phase.seen != [] { PrefixHighest(all, r.phase.seen); }
    }
  }

  lemma PrefixGrows(all: seq<Migration>, recorded: seq<int>)
    requires IsPrefix(all, recorded) && |recorded| < |all|
    ensures IsPrefix(all, recorded + [all[|recorded|].version])
  {
    assert Versions(all[..|recorded| + 1]) == Versions(all[..|recorded|]) + [all[|recorded|].version];
  }

  lemma StepKeepsInv(all: seq<Migration>, s: System, e: Event)
    requires GoodList(all) && Inv(all, s) && Enabled(all, s, e)
    ensures Inv(all, Next(all, s, e)) && s.recorded <= Next(all, s, e).recorded
  {
    hide IsPrefix, Ascending;
    match e
    case Advance(id) => AdvanceKeepsInv(all, s, id);
    case _ =>
      forall k | k in s.runners ensures RunnerOk(all, Next(all, s, e), s.runners[k]) {
        assert RunnerOk(all, s, s.runners[k]);
      }
  }

  lemma {:induction false} RunKeepsInv(all: seq<Migration>, run: seq<System>, events: seq<Event>, n: nat)
    requires GoodList(all) && IsRun(all, run, events) && n < |run|
    ensures Inv(all, run[n])
  {
    hide GoodList, Enabled, Next;
    if n > 0 {
      RunKeepsInv(all, run, events, n - 1);
      assert Enabled(all, run[n - 1], events[n - 1]);
      StepKeepsInv(all, run[n - 1], events[n - 1]);
    }
  }

  /**
   However runners race and die, what has been committed, in commit order, is a prefix
   of the list: each migration once, none early. A runner that finished left its whole
   list recorded, no runner is refused as out of order, and the plan is exact.
   */
  lemma RacingMigrations(all: seq<Migration>, run: seq<System>, events: seq<Event>, n: nat, size: nat)
    requires GoodList(all) && IsRun(all, run, events) && n < |run| && size <= |all|
    ensures IsPrefix(all, run[n].recorded)
    ensures forall i, j :: 0 <= i < j < |run[n].recorded| ==> run[n].recorded[i] < run[n].recorded[j]
    ensures forall id :: id in run[n].runners ==> !run[n].runners[id].phase.OutOfOrder?
    ensures forall id, i :: id in run[n].runners && run[n].runners[id].phase.Finished? && 0 <= i < run[n].runners[id].size ==>
              i < |all| && all[i].version in run[n].recorded
    ensures Pending(Highest(run[n].recorded), all[..size]) ==
            if |run[n].recorded| <= size then all[|run[n].recorded|..size] else []
  {
    hide IsRun;
    RunKeepsInv(all, run, events, n);
    var s := run[n];
    forall id, i | id in s.runners && s.runners[id].phase.Finished? && 0 <= i < s.runners[id].size
      ensures i < |all| && all[i].version in s.recorded
    {
      assert RunnerOk(all, s, s.runners[id]);
      PrefixHas(all, s.recorded, i);
    }
    forall id | id in s.runners ensures !s.runners[id].phase.OutOfOrder? { assert RunnerOk(all, s, s.runners[id]); }
    PendingIsTail(all, s.recorded, size);
  }

  /** Only a commit grows the record, by one version at a time. */
  lemma RecordOnlyGrows(all: seq<Migration>, run: seq<System>, events: seq<Event>, n: nat)
    requires GoodList(all) && IsRun(all, run, events) && n < |events|
    ensures run[n + 1].recorded == run[n].recorded ||
            (|run[n].recorded| < |all| && run[n + 1].recorded == run[n].recorded + [all[|run[n].recorded|].version])
  {
    RunKeepsInv(all, run, events, n);
    RunKeepsInv(all, run, events, n + 1);
    assert Enabled(all, run[n], events[n]);
  }
}
