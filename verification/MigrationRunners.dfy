/**
 The two runners and the classifier, statement by statement. Rival runners are inputs:
 `rivals[i]` holds the versions others record just before this runner's i-th step, and
 `faults[i]` says whether that step's transaction fails for a reason of its own. A
 transaction rolls back whole on a fault or on the primary key.
 */
module MigrationRunners {
  import opened Wrappers
  import opened Migrations

  datatype Failure =
    | Duplicate(version: int)
    | Descending(version: int)
    | NoStatements(version: int)
    | OutOfOrder(version: int)
    | RolledBack(version: int)

  // --------------------------------------------------------------------------
  // Validation
  // --------------------------------------------------------------------------

  ghost predicate Acceptable(list: seq<Migration>) {
    Ascending(list) && forall i :: 0 <= i < |list| ==> list[i].statements != []
  }

  /** What is said about the first migration that cannot follow the ones before it. */
  function Complaint(list: seq<Migration>, k: nat): Failure
    requires k < |list|
  {
    if list[k].version in Versions(list[..k]) then Duplicate(list[k].version)
    else if k > 0 && list[k].version <= list[k - 1].version then Descending(list[k].version)
    else NoStatements(list[k].version)
  }

  method Validate(list: seq<Migration>) returns (r: Option<Failure>)
    ensures r.None? <==> Acceptable(list)
    ensures r.Some? ==> exists k :: 0 <= k < |list| && Acceptable(list[..k]) && !Acceptable(list[..k + 1])
                                    && r.value == Complaint(list, k)
  {
    var seen: set<int> := {};
    for k := 0 to |list|
      invariant Acceptable(list[..k])
      invariant forall v :: v in seen <==> v in Versions(list[..k])
    {
      var m := list[k];
      assert list[..k + 1] == list[..k] + [m];
      if m.version in seen {
        Repeats(list, k);
        return Some(Duplicate(m.version));
      }
      if k > 0 && m.version <= list[k - 1].version {
        assert list[..k + 1][k] == m && list[..k + 1][k - 1] == list[k - 1];
        return Some(Descending(m.version));
      }
      if m.statements == [] {
        assert list[..k + 1][k] == m;
        return Some(NoStatements(m.version));
      }
      seen := seen + {m.version};
      assert Versions(list[..k + 1]) == Versions(list[..k]) + [m.version];
      assert k > 0 ==> list[..k][k - 1] == list[k - 1];
    }
    assert list[..|list|] == list;
    return None;
  }

  /**
   The first migration that cannot follow the ones before it, and what is wrong with it:
   a version that was there already, one that falls behind the one before, or nothing to do.
   */
  lemma FirstFault(list: seq<Migration>, k: nat)
    requires k < |list| && Acceptable(list[..k]) && !Acceptable(list[..k + 1])
    ensures var v := list[k].version;
            && (Complaint(list, k) == Duplicate(v) <==> exists i :: 0 <= i < k && list[i].version == v)
            && (Complaint(list, k) == Descending(v) <==>
                  k > 0 && v < list[k - 1].version && forall i :: 0 <= i < k ==> list[i].version != v)
            && (Complaint(list, k) == NoStatements(v) <==>
                  list[k].statements == [] && forall i :: 0 <= i < k ==> list[i].version < v)
  {
    var v, done := list[k].version, list[..k];
    assert list[..k + 1] == done + [list[k]];
    assert v in Versions(done) <==> exists i :: 0 <= i < k && list[i].version == v by {
      if v in Versions(done) { var i :| 0 <= i < k && Versions(done)[i] == v; assert list[i].version == v; }
      if i :| 0 <= i < k && list[i].version == v { assert Versions(done)[i] == v; }
    }
    assert forall i :: 0 <= i < k ==> done[i] == list[i];
    if k > 0 { assert done[k - 1] == list[k - 1]; }
  }

  lemma Repeats(list: seq<Migration>, k: nat)
    requires k < |list| && list[k].version in Versions(list[..k])
    ensures !Acceptable(list[..k + 1]) && !Acceptable(list)
  {
    var i :| 0 <= i < k && Versions(list[..k])[i] == list[k].version;
    assert list[..k + 1][i].version == list[..k + 1][k].version;
  }

  // --------------------------------------------------------------------------
  // Sorting
  // --------------------------------------------------------------------------

  ghost predicate Rising(list: seq<Migration>) {
    forall i, j :: 0 <= i < j < |list| ==> list[i].version <= list[j].version
  }

  function InsertByVersion(m: Migration, list: seq<Migration>): (r: seq<Migration>)
    ensures multiset(r) == multiset(list) + multiset{m}
  {
    if list == [] || m.version <= list[0].version then [m] + list
    else
      assert list == [list[0]] + list[1..];
      [list[0]] + InsertByVersion(m, list[1..])
  }

  /** The stable sort by version. */
  function Ordered(list: seq<Migration>): (r: seq<Migration>)
    ensures multiset(r) == multiset(list) && |r| == |list|
  {
    if list == [] then []
    else
      assert list == [list[0]] + list[1..];
      assert |multiset(list)| == |list|;
      var r := InsertByVersion(list[0], Ordered(list[1..]));
      assert |multiset(r)| == |r|;
      r
  }

  lemma {:induction false} InsertRises(m: Migration, list: seq<Migration>)
    requires Rising(list)
    ensures Rising(InsertByVersion(m, list))
  {
    if list != [] && m.version > list[0].version {
      var rest := InsertByVersion(m, list[1..]);
      assert forall i :: 0 <= i < |list| - 1 ==> list[1..][i] == list[i + 1];
      InsertRises(m, list[1..]);
      InsertedAreLater(m, list[1..], list[0].version);
      assert InsertByVersion(m, list) == [list[0]] + rest;
    }
  }

  lemma InsertedAreLater(m: Migration, list: seq<Migration>, v: int)
    requires v <= m.version && forall i :: 0 <= i < |list| ==> v <= list[i].version
    ensures forall i :: 0 <= i < |InsertByVersion(m, list)| ==> v <= InsertByVersion(m, list)[i].version
  {
    var r := InsertByVersion(m, list);
    forall i | 0 <= i < |r| ensures v <= r[i].version {
      assert r[i] in multiset(r);
      assert r[i] in multiset(list) + multiset{m};
      if r[i] != m { assert r[i] in list; }
    }
  }

  lemma {:induction false} OrderedRises(list: seq<Migration>)
    ensures Rising(Ordered(list))
  {
    if list != [] {
      OrderedRises(list[1..]);
      InsertRises(list[0], Ordered(list[1..]));
    }
  }

  lemma OrderedHas(list: seq<Migration>, m: Migration)
    ensures m in Ordered(list) <==> m in list
  {
    assert m in Ordered(list) <==> m in multiset(Ordered(list));
    assert m in list <==> m in multiset(list);
  }

  /** The versions of a list that were not there before, in list order. */
  function Missing(seen: seq<int>, list: seq<Migration>): seq<int> {
    if list == [] then []
    else
      var last := list[|list| - 1].version;
      Missing(seen, list[..|list| - 1]) + (if last in seen then [] else [last])
  }

  lemma {:induction false} MissingHas(seen: seq<int>, list: seq<Migration>, v: int)
    ensures v in Missing(seen, list) <==> v in Versions(list) && v !in seen
  {
    if list != [] {
      var front := list[..|list| - 1];
      MissingHas(seen, front, v);
      assert Versions(list) == Versions(front) + [list[|list| - 1].version];
    }
  }

  /** One more migration; in an ascending list nothing before it carries its version. */
  lemma MissingStep(seen: seq<int>, list: seq<Migration>, i: nat)
    requires Ascending(list) && i < |list|
    ensures Missing(seen, list[..i + 1]) ==
            Missing(seen, list[..i]) + (if list[i].version in seen then [] else [list[i].version])
    ensures list[i].version !in Missing(seen, list[..i])
  {
    assert list[..i + 1][..i] == list[..i];
    MissingHas(seen, list[..i], list[i].version);
  }

  lemma NothingYet(list: seq<Migration>, recorded: seq<int>)
    ensures Missing(recorded, list[..0]) == [] && Declared(list[..0], recorded) && recorded == recorded + []
  {}

  lemma DeclaredStep(list: seq<Migration>, i: nat, was: seq<int>, recorded: seq<int>)
    requires i < |list| && Declared(list[..i], was) && was <= recorded && list[i].version in recorded
    ensures Declared(list[..i + 1], recorded)
  {
    assert list[..i + 1] == list[..i] + [list[i]];
  }

  lemma QuietAt(rivals: seq<seq<int>>, faults: seq<bool>, i: nat)
    requires i < |rivals| == |faults|
    ensures Quiet(rivals, faults) ==> rivals[i] == [] && !faults[i]
  {}

  ghost predicate Declared(list: seq<Migration>, recorded: seq<int>) {
    forall m :: m in list ==> m.version in recorded
  }

  // --------------------------------------------------------------------------
  // The migrations table
  // --------------------------------------------------------------------------

  ghost predicate Distinct(recorded: seq<int>) {
    forall i, j :: 0 <= i < j < |recorded| ==> recorded[i] != recorded[j]
  }

  /** Nobody else commits, and nothing fails. */
  ghost predicate Quiet(rivals: seq<seq<int>>, faults: seq<bool>) {
    (forall i :: 0 <= i < |rivals| ==> rivals[i] == []) && (forall i :: 0 <= i < |faults| ==> !faults[i])
  }

  class Table {
    /** Versions in commit order. */
    var recorded: seq<int>

    constructor ()
      ensures recorded == []
    {
      recorded := [];
    }

    method Txn(version: int, fault: bool) returns (ok: bool)
      requires Distinct(recorded)
      modifies this
      ensures Distinct(recorded)
      ensures ok <==> !fault && version !in old(recorded)
      ensures recorded == if ok then old(recorded) + [version] else old(recorded)
    {
      ok := !fault && version !in recorded;
      if ok { recorded := recorded + [version]; }
    }

    method Others(versions: seq<int>)
      requires Distinct(recorded)
      modifies this
      ensures Distinct(recorded) && old(recorded) <= recorded
      ensures forall v :: v in recorded <==> v in old(recorded) || v in versions
      ensures versions == [] ==> recorded == old(recorded)
    {
      for i := 0 to |versions|
        invariant Distinct(recorded) && old(recorded) <= recorded
        invariant forall v :: v in recorded <==> v in old(recorded) || v in versions[..i]
        invariant i == 0 ==> recorded == old(recorded)
      {
        var _ := Txn(versions[i], false);
        assert versions[..i + 1] == versions[..i] + [versions[i]];
      }
      assert versions[..|versions|] == versions;
    }

    /** One migration's transaction, with whatever others record first. */
    method Attempt(version: int, rival: seq<int>, fault: bool) returns (ok: bool)
      requires Distinct(recorded)
      modifies this
      ensures Distinct(recorded) && old(recorded) <= recorded
      ensures ok ==> version in recorded
      ensures rival == [] && !fault && version !in old(recorded) ==> ok && recorded == old(recorded) + [version]
    {
      Others(rival);
      ok := Txn(version, fault);
    }

    /** The state layer's runner. */
    method Migrate(list: seq<Migration>, rivals: seq<seq<int>>, faults: seq<bool>) returns (r: Result<seq<int>, Failure>)
      requires Distinct(recorded) && |rivals| == |faults| == |list|
      modifies this
      ensures Distinct(recorded) && old(recorded) <= recorded
      ensures !Acceptable(list) ==> r.Err? && recorded == old(recorded)
      ensures r.Ok? ==> Declared(list, recorded) && r.value == Missing(old(recorded), list)
      ensures Acceptable(list) && Quiet(rivals, faults) ==> r.Ok? && recorded == old(recorded) + r.value
    {
      hide Distinct, Missing, Declared, Ascending, Quiet;
      var complaint := Validate(list);
      if complaint.Some? { return Err(complaint.value); }
      var applied := recorded;
      NothingYet(list, applied);
      var result: seq<int> := [];
      for i := 0 to |list|
        invariant Distinct(recorded) && old(recorded) <= recorded
        invariant result == Missing(applied, list[..i])
        invariant Declared(list[..i], recorded)
        invariant Quiet(rivals, faults) ==> recorded == applied + result
      {
        ghost var was := recorded;
        var version := list[i].version;
        MissingStep(applied, list, i);
        if version !in applied {
          QuietAt(rivals, faults, i);
          var ok := Attempt(version, rivals[i], faults[i]);
          if !ok { return Err(RolledBack(version)); }
          result := result + [version];
        }
        DeclaredStep(list, i, was, recorded);
      }
      assert list[..|list|] == list;
      return Ok(result);
    }

    /** The ledger's forward-only runner, once its list is in order and free of duplicates. */
    method ApplyOrdered(ordered: seq<Migration>, rivals: seq<seq<int>>, faults: seq<bool>)
      returns (r: Result<seq<int>, Failure>)
      requires Distinct(recorded) && |rivals| == |faults| == |ordered| && Ascending(ordered)
      modifies this
      ensures Distinct(recorded) && old(recorded) <= recorded
      ensures r.Ok? ==> Declared(ordered, recorded) && r.value == Missing(old(recorded), ordered)
      ensures r.Err? ==> r.error.OutOfOrder? || r.error.RolledBack?
      ensures r.Err? && r.error.OutOfOrder? ==> !ForwardOnly(old(recorded), ordered)
      ensures r.Err? && r.error.OutOfOrder? && Quiet(rivals, faults) ==> recorded == old(recorded)
      ensures Quiet(rivals, faults) && ForwardOnly(old(recorded), ordered) ==> r.Ok? && recorded == old(recorded) + r.value
    {
      hide ForwardOnly, Distinct, Missing, Declared, Ascending, Quiet, Highest;
      var already := recorded;
      var highestApplied := Highest(already);
      NothingYet(ordered, already);
      var applied: seq<int> := [];
      for i := 0 to |ordered|
        invariant Distinct(recorded) && old(recorded) <= recorded
        invariant applied == Missing(already, ordered[..i])
        invariant Declared(ordered[..i], recorded)
        invariant Quiet(rivals, faults) ==> recorded == already + applied
        invariant i < |ordered| && ordered[i].version <= highestApplied ==> applied == []
      {
        ghost var was := recorded;
        var version := ordered[i].version;
        MissingStep(already, ordered, i);
        if i + 1 < |ordered| { InOrder(ordered, i, i + 1); }
        if version !in already {
          if version <= highestApplied {
            NotForwardOnly(already, ordered, ordered[i]);
            assert already + [] == already;
            return Err(OutOfOrder(version));
          }
          QuietAt(rivals, faults, i);
          var ok := Attempt(version, rivals[i], faults[i]);
          if !ok {
            return Err(RolledBack(version));
          }
          applied := applied + [version];
        }
        DeclaredStep(ordered, i, was, recorded);
      }
      assert ordered[..|ordered|] == ordered;
      return Ok(applied);
    }

    /** The ledger's forward-only runner. */
    method RunMigrations(list: seq<Migration>, rivals: seq<seq<int>>, faults: seq<bool>)
      returns (r: Result<seq<int>, Failure>)
      requires Distinct(recorded) && |rivals| == |faults| == |list|
      modifies this
      ensures Distinct(recorded) && old(recorded) <= recorded
      ensures r.Err? && r.error.Duplicate? <==> !Ascending(Ordered(list))
      ensures r.Ok? ==> Declared(list, recorded) && r.value == Missing(old(recorded), Ordered(list))
      ensures r.Err? && r.error.OutOfOrder? ==> !ForwardOnly(old(recorded), list)
      ensures r.Err? && !r.error.RolledBack? && Quiet(rivals, faults) ==> recorded == old(recorded)
      ensures Ascending(Ordered(list)) && Quiet(rivals, faults) && ForwardOnly(old(recorded), list) ==>
                r.Ok? && recorded == old(recorded) + r.value
    {
      hide Ascending, Distinct, Missing, Ordered;
      var ordered := Ordered(list);
      var duplicate := FirstDuplicate(list);
      if duplicate.Some? { return Err(Duplicate(duplicate.value)); }
      OrderedDeclares(list, recorded);
      r := ApplyOrdered(ordered, rivals, faults);
      OrderedDeclares(list, recorded);
    }

    /**
     The adjudicated act: run, and when that fails ask the record whether every declared
     version is there after all. Others record `early` between its two first reads of the
     table, and `late` before that second look.
     */
    method MigrateLedger(
      list: seq<Migration>, early: seq<int>, rivals: seq<seq<int>>, faults: seq<bool>, late: seq<int>)
      returns (r: Result<Report, Failure>)
      requires Distinct(recorded) && |rivals| == |faults| == |list|
      modifies this
      ensures Distinct(recorded) && old(recorded) <= recorded
      ensures r.Ok? <==> Declared(list, recorded)
      ensures r.Ok? ==> r.value.version == Highest(recorded) && Ascends(r.value.applied)
      ensures r.Ok? ==> forall v :: v in r.value.applied ==> v in recorded && v !in old(recorded)
      ensures r.Ok? ==> forall m :: m in list ==> m.version in old(recorded) + early + r.value.applied
      ensures r.Ok? && r.value.concurrent ==> forall v :: v in recorded ==> v in old(recorded) || v in r.value.applied
      ensures Ascending(Ordered(list)) && early == [] && Quiet(rivals, faults) && ForwardOnly(old(recorded), list) ==>
                r.Ok? && !r.value.concurrent && recorded == old(recorded) + r.value.applied
    {
      hide Ascending, Distinct, Ordered, Missing, Highest, Quiet, ForwardOnly, Declared;
      var before := recorded;
      Others(early);
      ghost var seen := recorded;
      var ran := RunMigrations(list, rivals, faults);
      if ran.Ok? {
        MissingReported(seen, list, recorded);
        return Ok(Report(ran.value, Highest(recorded), false));
      }
      Others(late);
      var complete := AllDeclared(list, recorded);
      if !complete { return Err(ran.error); }
      DeclaredMeans(list, recorded);
      return Ok(Report(NewSince(before, recorded), Highest(recorded), true));
    }
  }

  /** `concurrent` says another runner finished the work. */
  datatype Report = Report(applied: seq<int>, version: int, concurrent: bool)

  ghost predicate Ascends(versions: seq<int>) {
    forall i, j :: 0 <= i < j < |versions| ==> versions[i] <= versions[j]
  }

  function InsertVersion(v: int, versions: seq<int>): (r: seq<int>)
    requires Ascends(versions)
    ensures Ascends(r) && forall x :: x in r <==> x == v || x in versions
  {
    if versions == [] || v <= versions[0] then [v] + versions
    else
      var rest := InsertVersion(v, versions[1..]);
      assert forall x :: x in rest ==> versions[0] <= x;
      assert forall i :: 0 <= i < |rest| ==> rest[i] in rest;
      [versions[0]] + rest
  }

  /** What `after` holds beyond `before`, ascending. */
  function NewSince(before: seq<int>, after: seq<int>): (r: seq<int>)
    ensures Ascends(r) && forall x :: x in r <==> x in after && x !in before
  {
    if after == [] then []
    else if after[0] in before then NewSince(before, after[1..])
    else InsertVersion(after[0], NewSince(before, after[1..]))
  }

  method AllDeclared(list: seq<Migration>, recorded: seq<int>) returns (r: bool)
    ensures r <==> Declared(list, recorded)
  {
    for i := 0 to |list|
      invariant Declared(list[..i], recorded)
    {
      if list[i].version !in recorded { return false; }
      assert list[..i + 1] == list[..i] + [list[i]];
    }
    assert list[..|list|] == list;
    return true;
  }

  lemma DeclaredMeans(list: seq<Migration>, recorded: seq<int>)
    requires Declared(list, recorded)
    ensures forall m :: m in list ==> m.version in recorded
  {}

  lemma {:induction false} MissingRises(seen: seq<int>, list: seq<Migration>)
    requires Rising(list)
    ensures Ascends(Missing(seen, list))
  {
    if list != [] {
      var front := list[..|list| - 1];
      MissingRises(seen, front);
      forall v | v in Missing(seen, front) ensures v <= list[|list| - 1].version {
        MissingHas(seen, front, v);
        var i :| 0 <= i < |front| && Versions(front)[i] == v;
        assert list[i].version == v;
      }
      var m := Missing(seen, front);
      assert forall i :: 0 <= i < |m| ==> m[i] in m;
    }
  }

  lemma MissingReported(seen: seq<int>, list: seq<Migration>, recorded: seq<int>)
    requires Declared(list, recorded)
    ensures Ascends(Missing(seen, Ordered(list)))
    ensures forall v :: v in Missing(seen, Ordered(list)) ==> v in recorded && v !in seen
    ensures forall m :: m in list && m.version !in seen ==> m.version in Missing(seen, Ordered(list))
  {
    hide Ordered, Missing;
    var ordered := Ordered(list);
    OrderedRises(list);
    MissingRises(seen, ordered);
    OrderedDeclares(list, recorded);
    forall v | v in Missing(seen, ordered) ensures v in recorded && v !in seen {
      MissingHas(seen, ordered, v);
      var i :| 0 <= i < |ordered| && Versions(ordered)[i] == v;
      assert ordered[i] in ordered;
    }
    forall m | m in list && m.version !in seen ensures m.version in Missing(seen, ordered) {
      OrderedHas(list, m);
      var i :| 0 <= i < |ordered| && ordered[i] == m;
      assert Versions(ordered)[i] == m.version;
      MissingHas(seen, ordered, m.version);
    }
  }

  method FirstDuplicate(list: seq<Migration>) returns (r: Option<int>)
    ensures r.None? <==> Ascending(Ordered(list))
    ensures r.Some? ==> exists k :: 0 < k < |list| && Ordered(list)[k - 1].version == Ordered(list)[k].version == r.value
  {
    var ordered := Ordered(list);
    OrderedRises(list);
    if |ordered| == 0 { return None; }
    for k := 1 to |ordered|
      invariant forall i :: 0 < i < k ==> ordered[i - 1].version < ordered[i].version
    {
      if ordered[k].version == ordered[k - 1].version { return Some(ordered[k].version); }
    }
    StrictlyRises(ordered);
    return None;
  }

  lemma OrderedDeclares(list: seq<Migration>, recorded: seq<int>)
    ensures Declared(Ordered(list), recorded) <==> Declared(list, recorded)
    ensures ForwardOnly(recorded, Ordered(list)) <==> ForwardOnly(recorded, list)
  {
    forall m ensures m in Ordered(list) <==> m in list { OrderedHas(list, m); }
  }

  lemma NotForwardOnly(recorded: seq<int>, list: seq<Migration>, m: Migration)
    requires m in list && m.version !in recorded && m.version <= Highest(recorded)
    ensures !ForwardOnly(recorded, list)
  {}

  /** Every declared version not yet recorded lies above the highest one recorded. */
  ghost predicate ForwardOnly(recorded: seq<int>, list: seq<Migration>) {
    forall m :: m in list && m.version !in recorded ==> m.version > Highest(recorded)
  }

  lemma StrictlyRises(list: seq<Migration>)
    requires forall i :: 0 < i < |list| ==> list[i - 1].version < list[i].version
    ensures Ascending(list)
  {
    forall i, j | 0 <= i < j < |list| ensures list[i].version < list[j].version { StepsUp(list, i, j); }
  }

  lemma {:induction false} StepsUp(list: seq<Migration>, i: nat, j: nat)
    requires forall i :: 0 < i < |list| ==> list[i - 1].version < list[i].version
    requires i < j < |list|
    ensures list[i].version < list[j].version
  {
    if i + 1 < j { StepsUp(list, i, j - 1); }
  }
}
