/** The delivery rule: what to record after an attempt, and when to try again. */
module MailSchedule {
  import opened Wrappers

  datatype State = Pending | Sent | Failed

  /** Instants are milliseconds. */
  datatype Status = Status(
    state: State,
    attempts: nat,
    lastError: Option<string>,
    sentAt: Option<int>,
    nextAttemptAt: Option<int>)

  datatype Plan = Attempt | AlreadySent | GivenUp | NotYetDue

  const MAX_ATTEMPTS := 6
  const BASE_BACKOFF_MS := 60_000

  function Pow2(n: nat): (r: nat)
    ensures r >= 1
  {
    if n == 0 then 1 else 2 * Pow2(n - 1)
  }

  function Delay(attempts: nat): nat { BASE_BACKOFF_MS * Pow2(if attempts == 0 then 0 else attempts - 1) }

  function NextAttemptAfter(attempts: nat, now: int): int { now + Delay(attempts) }

  function PlanFor(status: Option<Status>, now: int): Plan {
    if status.None? then Attempt
    else match status.value.state
         case Sent => AlreadySent
         case Failed => GivenUp
         case Pending =>
           if status.value.nextAttemptAt.Some? && status.value.nextAttemptAt.value > now then NotYetDue else Attempt
  }

  function Tries(status: Option<Status>): nat { if status.Some? then status.value.attempts else 0 }

  function Truncated(error: string): string { if |error| <= 500 then error else error[..500] }

  function AfterFailure(status: Option<Status>, error: string, now: int): Status {
    var attempts := Tries(status) + 1;
    var state := if attempts >= MAX_ATTEMPTS then Failed else Pending;
    Status(state, attempts, Some(Truncated(error)), None,
           if state == Pending then Some(NextAttemptAfter(attempts, now)) else None)
  }

  function AfterSuccess(status: Option<Status>, now: int): Status {
    Status(Sent, Tries(status) + 1, None, Some(now), None)
  }

  /** One, two, four, eight and sixteen minutes after the first five failures; none after the sixth. */
  const WAITS: seq<nat> := [60_000, 120_000, 240_000, 480_000, 960_000]

  /**
   What a failure leads to: the next attempt is due from exactly so much later on, until
   the sixth, which is the last; and the error stays readable, its first 500 characters.
   */
  lemma FailureLeadsTo(status: Option<Status>, error: string, now: int, at: int)
    ensures var k, next := Tries(status) + 1, AfterFailure(status, error, now);
            && next.attempts == k && next.sentAt.None? && (next.nextAttemptAt.Some? <==> k < 6)
            && next.state == (if k < 6 then Pending else Failed)
            && PlanFor(Some(next), at) == (if k >= 6 then GivenUp else if at < now + WAITS[k - 1] then NotYetDue else Attempt)
            && next.lastError.Some? && next.lastError.value <= error
            && |next.lastError.value| == if |error| < 500 then |error| else 500
  {
    var k := Tries(status) + 1;
    assert Pow2(1) == 2 && Pow2(2) == 4 && Pow2(3) == 2 * Pow2(2) && Pow2(4) == 2 * Pow2(3);
    if k < 6 { assert k == 1 || k == 2 || k == 3 || k == 4 || k == 5; }
  }

  /** A success is dated, counted, and never tried again; a notice without a status always is. */
  lemma SuccessLeadsTo(status: Option<Status>, now: int, at: int)
    ensures var next := AfterSuccess(status, now);
            && next.state == Sent && next.attempts == Tries(status) + 1 && next.sentAt == Some(now)
            && next.lastError.None? && next.nextAttemptAt.None?
            && PlanFor(Some(next), at) == AlreadySent
    ensures PlanFor(None, at) == Attempt
  {}
}

/**
 Delivery of one notice over whole runs. Passes follow one another and read the status
 afresh; everything else about a pass is adversarial: the relay's answer, the fate of
 each status write, and where the process dies.
 */
module MailDelivery {
  import opened Wrappers
  import opened MailSchedule

  datatype Send = Delivered | Rejected(error: string) | DiedSending

  /** `Unacknowledged` is a write that commits while its caller sees an error. */
  datatype Fate = Committed | Refused(error: string) | Unacknowledged(error: string) | DiedWriting

  datatype Script = Script(now: int, send: Send, first: Fate, second: Fate)

  datatype Outcome = WasSent | WasSkipped | GaveUp | Threw | Died

  /**
   The notice and what has happened to it: sends the relay took, sends whose status
   write was lost, recorded successes overwritten by a failure, recorded failure times.
   */
  datatype History = History(
    raised: bool,
    status: Option<Status>,
    sends: nat,
    lost: nat,
    overwritten: nat,
    failures: seq<int>)

  function Stored(fate: Fate): bool { fate.Committed? || fate.Unacknowledged? }

  function RecordFailure(h: History, seen: Option<Status>, error: string, s: Script): History {
    if Stored(s.second) then
      h.(status := Some(AfterFailure(seen, error, s.now)), failures := h.failures + [s.now],
         overwritten := h.overwritten + (if h.status.Some? && h.status.value.state.Sent? then 1 else 0))
    else h
  }

  function Pass(h: History, s: Script): History {
    if !h.raised || PlanFor(h.status, s.now) != Attempt then h
    else match s.send
         case DiedSending => h
         case Rejected(error) => RecordFailure(h, h.status, error, s)
         case Delivered =>
           var sent := h.(sends := h.sends + 1);
           (match s.first
            case Committed => sent.(status := Some(AfterSuccess(h.status, s.now)))
            case DiedWriting => sent.(lost := h.lost + 1)
            case Refused(error) => RecordFailure(sent.(lost := h.lost + 1), h.status, error, s)
            case Unacknowledged(error) =>
              RecordFailure(sent.(status := Some(AfterSuccess(h.status, s.now))), h.status, error, s))
  }

  class Notice {
    var raised: bool
    var status: Option<Status>
    ghost var sends: nat
    ghost var lost: nat
    ghost var overwritten: nat
    ghost var failures: seq<int>

    ghost function Seen(): History
      reads this
    {
      History(raised, status, sends, lost, overwritten, failures)
    }

    constructor ()
      ensures Seen() == History(false, None, 0, 0, 0, [])
    {
      raised, status := false, None;
      sends, lost, overwritten, failures := 0, 0, 0, [];
    }

    method SetStatus(next: Status, fate: Fate)
      modifies this`status
      ensures status == if Stored(fate) then Some(next) else old(status)
    {
      if fate.Committed? || fate.Unacknowledged? { status := Some(next); }
    }

    method Deliver(s: Script) returns (outcome: Outcome)
      modifies this
      ensures Seen() == Pass(old(Seen()), s)
      ensures outcome.WasSent? ==> status.Some? && status.value.state.Sent?
      ensures outcome.GaveUp? ==> status.Some? && status.value.state.Failed?
      ensures !old(raised) || PlanFor(old(status), s.now) != Attempt ==> outcome == WasSkipped
      ensures old(raised) && PlanFor(old(status), s.now) == Attempt ==>
                && (outcome == WasSent <==> s.send.Delivered? && s.first.Committed?)
                && (outcome != WasSent && !s.send.DiedSending? && !(s.send.Delivered? && s.first.DiedWriting?) ==>
                      outcome == match s.second
                                 case Committed => if Tries(old(status)) < 5 then WasSkipped else GaveUp
                                 case DiedWriting => Died
                                 case _ => Threw)
                && (s.send.DiedSending? || (s.send.Delivered? && s.first.DiedWriting?) ==> outcome == Died)
    {
      if !raised { return WasSkipped; }
      var seen := status;
      var plan := PlanFor(seen, s.now);
      if plan != Attempt { return WasSkipped; }
      var error: string;
      match s.send {
        case DiedSending => return Died;
        case Rejected(e) => error := e;
        case Delivered =>
          sends := sends + 1;
          SetStatus(AfterSuccess(seen, s.now), s.first);
          match s.first {
            case Committed => return WasSent;
            case DiedWriting =>
              lost := lost + 1;
              return Died;
            case Refused(e) =>
              lost := lost + 1;
              error := e;
            case Unacknowledged(e) => error := e;
          }
      }
      var next := AfterFailure(seen, error, s.now);
      if Stored(s.second) {
        failures := failures + [s.now];
        if status.Some? && status.value.state.Sent? { overwritten := overwritten + 1; }
      }
      SetStatus(next, s.second);
      match s.second {
        case Committed => return if next.state.Failed? then GaveUp else WasSkipped;
        case DiedWriting => return Died;
        case _ => return Threw;
      }
    }
  }

  // --------------------------------------------------------------------------
  // Runs
  // --------------------------------------------------------------------------

  datatype Event = Raise | Deliver(script: Script)

  function Step(h: History, e: Event): History {
    match e
    case Raise => h.(raised := true)
    case Deliver(s) => Pass(h, s)
  }

  function After(h: History, events: seq<Event>): History {
    if events == [] then h else Step(After(h, events[..|events| - 1]), events[|events| - 1])
  }

  function Fresh(): History { History(false, None, 0, 0, 0, []) }

  ghost predicate Spaced(failures: seq<int>) {
    forall k :: 0 <= k < |failures| - 1 ==> failures[k] + Delay(k + 1) <= failures[k + 1]
  }

  ghost predicate StatusOk(h: History) {
    match h.status
    case None => h.failures == []
    case Some(st) =>
      && 1 <= st.attempts <= MAX_ATTEMPTS
      && match st.state
         case Pending =>
           && st.attempts == |h.failures| < MAX_ATTEMPTS
           && st.nextAttemptAt == Some(h.failures[|h.failures| - 1] + Delay(|h.failures|))
         case Failed => st.attempts == |h.failures| == MAX_ATTEMPTS
         case Sent => st.attempts == |h.failures| + 1
  }

  function SentCount(h: History): nat { if h.status.Some? && h.status.value.state.Sent? then 1 else 0 }

  ghost predicate Inv(h: History) {
    && StatusOk(h) && Spaced(h.failures)
    && h.sends == SentCount(h) + h.lost + h.overwritten
  }

  /** The failure of a pass that read `h.status`, whatever its send and first write came to. */
  lemma FailureKeepsInv(h: History, g: History, error: string, s: Script)
    requires Inv(h) && PlanFor(h.status, s.now) == Attempt
    requires g == h.(sends := g.sends, lost := g.lost, status := g.status)
    requires || (g.status == h.status && g.sends + h.lost == h.sends + g.lost)
             || (g.status == Some(AfterSuccess(h.status, s.now)) && g.sends == h.sends + 1 && g.lost == h.lost)
    ensures Inv(RecordFailure(g, h.status, error, s))
  {
    hide Pow2, Delay, Truncated, Spaced, PlanFor;
    NotSentYet(h, s.now);
    if Stored(s.second) { SpacedGrows(h, s.now); }
  }

  lemma NotSentYet(h: History, now: int)
    requires PlanFor(h.status, now) == Attempt
    ensures h.status.Some? ==> h.status.value.state.Pending?
  {}

  lemma SpacedGrows(h: History, now: int)
    requires StatusOk(h) && Spaced(h.failures) && PlanFor(h.status, now) == Attempt
    ensures Spaced(h.failures + [now])
  {
    hide Delay;
    var f := h.failures + [now];
    forall k | 0 <= k < |f| - 1 ensures f[k] + Delay(k + 1) <= f[k + 1] {
      assert k < |h.failures| - 1 ==> h.failures[k] + Delay(k + 1) <= h.failures[k + 1];
    }
  }

  lemma PassKeepsInv(h: History, s: Script)
    requires Inv(h)
    ensures Inv(Pass(h, s))
  {
    hide Pow2, Delay, Truncated, Spaced, RecordFailure;
    if h.raised && PlanFor(h.status, s.now) == Attempt {
      NotSentYet(h, s.now);
      var sent := h.(sends := h.sends + 1);
      match s.send
      case DiedSending =>
      case Rejected(error) => FailureKeepsInv(h, h, error, s);
      case Delivered =>
        if s.first.Refused? { FailureKeepsInv(h, sent.(lost := h.lost + 1), s.first.error, s); }
        if s.first.Unacknowledged? {
          FailureKeepsInv(h, sent.(status := Some(AfterSuccess(h.status, s.now))), s.first.error, s);
        }
    }
  }

  lemma {:induction false} RunKeepsInv(events: seq<Event>)
    ensures Inv(After(Fresh(), events))
  {
    if events != [] {
      RunKeepsInv(events[..|events| - 1]);
      var h, e := After(Fresh(), events[..|events| - 1]), events[|events| - 1];
      if e.Deliver? { PassKeepsInv(h, e.script); }
    }
  }

  /** Attempts are bounded, recorded failures keep their distance, and sends are accounted for. */
  lemma DeliveryBounds(events: seq<Event>)
    ensures var h := After(Fresh(), events);
            && Tries(h.status) <= MAX_ATTEMPTS && |h.failures| <= MAX_ATTEMPTS
            && (forall k :: 0 <= k < |h.failures| - 1 ==> h.failures[k + 1] - h.failures[k] >= 60_000 * Pow2(k))
            && h.sends == SentCount(h) + h.lost + h.overwritten
            && h.sends <= 1 + h.lost + h.overwritten
  {
    hide After, Pow2;
    RunKeepsInv(events);
    var f := After(Fresh(), events).failures;
    forall k | 0 <= k < |f| - 1 ensures f[k + 1] - f[k] >= 60_000 * Pow2(k) {
      assert f[k] + Delay(k + 1) <= f[k + 1];
    }
  }

  /** Giving up takes at least thirty-one minutes of recorded failures. */
  lemma GivingUpTakesTime(events: seq<Event>)
    requires var h := After(Fresh(), events); h.status.Some? && h.status.value.state.Failed?
    ensures var h := After(Fresh(), events); |h.failures| == 6 && h.failures[5] - h.failures[0] >= 60_000 * 31
  {
    hide After;
    RunKeepsInv(events);
    var f := After(Fresh(), events).failures;
    assert Pow2(0) == 1 && Pow2(1) == 2 && Pow2(2) == 4 && Pow2(3) == 8 && Pow2(4) == 16;
    assert f[0] + Delay(1) <= f[1] && f[1] + Delay(2) <= f[2] && f[2] + Delay(3) <= f[3];
    assert f[3] + Delay(4) <= f[4] && f[4] + Delay(5) <= f[5];
  }

  /** Once sent or given up, nothing that happens later changes the status or sends again. */
  lemma {:induction false} TerminalIsAbsorbing(h: History, events: seq<Event>)
    requires h.status.Some? && !h.status.value.state.Pending?
    ensures var h' := After(h, events); h'.status == h.status && h'.sends == h.sends && h'.failures == h.failures
  {
    if events != [] { TerminalIsAbsorbing(h, events[..|events| - 1]); }
  }

  /** A pass that sends, records it without learning so, and then records a failure over it. */
  predicate Overwrites(h: History, e: Event) {
    && e.Deliver? && h.raised && PlanFor(h.status, e.script.now) == Attempt
    && e.script.send.Delivered? && e.script.first.Unacknowledged? && Stored(e.script.second)
  }

  lemma OverwriteExact(h: History, e: Event)
    ensures Step(h, e).overwritten == h.overwritten + (if Overwrites(h, e) then 1 else 0)
  {
    hide Delay, Truncated;
  }

  /** How many passes of a run do that. */
  function CountOverwrites(h: History, events: seq<Event>): nat {
    if events == [] then 0
    else
      var front := events[..|events| - 1];
      CountOverwrites(h, front) + (if Overwrites(After(h, front), events[|events| - 1]) then 1 else 0)
  }

  lemma {:induction false} OverwritesCounted(h: History, events: seq<Event>)
    ensures After(h, events).overwritten == h.overwritten + CountOverwrites(h, events)
  {
    hide Overwrites, Step;
    if events != [] {
      OverwritesCounted(h, events[..|events| - 1]);
      OverwriteExact(After(h, events[..|events| - 1]), events[|events| - 1]);
    }
  }

  /**
   When sends stay within one plus the lost status writes: if and only if no recorded
   success was overwritten, or one was and the notice is not recorded as sent again.
   */
  lemma SendBoundExact(events: seq<Event>)
    ensures var h := After(Fresh(), events);
            && h.sends == SentCount(h) + h.lost + CountOverwrites(Fresh(), events)
            && (h.sends <= 1 + h.lost <==> SentCount(h) + CountOverwrites(Fresh(), events) <= 1)
  {
    hide After, CountOverwrites;
    RunKeepsInv(events);
    OverwritesCounted(Fresh(), events);
  }

  /** Without unacknowledged success writes the bound holds. */
  lemma {:induction false} NothingOverwritten(events: seq<Event>)
    requires forall i :: 0 <= i < |events| && events[i].Deliver? ==> !events[i].script.first.Unacknowledged?
    ensures CountOverwrites(Fresh(), events) == 0 && After(Fresh(), events).overwritten == 0
    ensures After(Fresh(), events).sends <= 1 + After(Fresh(), events).lost
  {
    hide Inv, Pow2, Delay, After;
    if events != [] {
      var n := |events| - 1;
      assert forall i :: 0 <= i < n ==> events[..n][i] == events[i];
      NothingOverwritten(events[..n]);
    }
    OverwritesCounted(Fresh(), events);
    SendBoundExact(events);
  }

  /** With one the message goes out twice, and no status write was lost. */
  lemma SuccessCanBeOverwritten(now: int, error: string, fate: Fate)
    ensures var first := Deliver(Script(now, Delivered, Unacknowledged(error), Committed));
            var second := Deliver(Script(now + 60_000, Delivered, Committed, fate));
            var h := After(Fresh(), [Raise, first, second]);
            && After(Fresh(), [Raise, first]).status.Some?
            && After(Fresh(), [Raise, first]).status.value.state.Pending?
            && h.sends == 2 && h.lost == 0 && h.status.Some? && h.status.value.state.Sent?
  {
    var first := Deliver(Script(now, Delivered, Unacknowledged(error), Committed));
    var second := Deliver(Script(now + 60_000, Delivered, Committed, fate));
    assert [] + [Raise] == [Raise] && [Raise] + [first] == [Raise, first];
    assert [Raise, first] + [second] == [Raise, first, second];
    AfterOne(Fresh(), [], Raise);
    AfterOne(Fresh(), [Raise], first);
    AfterOne(Fresh(), [Raise, first], second);
    assert Delay(1) == 60_000;
  }

  lemma AfterOne(h: History, events: seq<Event>, e: Event)
    ensures After(h, events + [e]) == Step(After(h, events), e)
  {
    hide Step;
    assert (events + [e])[..|events|] == events;
  }
}

/** Raising a notice again, while the whole control plane runs. */
module MailNotices {
  import opened Wrappers
  import opened ControlTables
  import opened Admission
  import opened ControlRuns

  /**
   Whoever raises a notice again, however often and however the raises interleave with
   everything else, its status stays until somebody writes a status.
   */
  lemma RaiseKeepsStatus<B>(
      c: Config, run: seq<System<B>>, events: seq<Event<B>>, i: nat, j: nat, notice: Key)
    requires IsRun(c, run, events) && i <= j < |run| && notice in run[i].tables.rows
    requires forall n :: i <= n < j ==> !CommitsStatus(run[n], events[n], notice)
    ensures notice in run[j].tables.rows && run[j].tables.rows[notice].status == run[i].tables.rows[notice].status
  {
    StatusOnlyByStatusWrites(c, run, events, i, j, notice);
  }

  /**
   From the delivery controller's first status write on, its token's mark is on the notice
   and every unfenced raise is refused, at the read and in the transaction, for good.
   */
  lemma DeliveredNoticeRefusesRaise<B>(
      c: Config, run: seq<System<B>>, events: seq<Event<B>>, i: nat, j: nat, id: nat, now: string, body: B)
    requires IsRun(c, run, events) && i < j < |run| && events[i] == Commit(id)
    requires var w := run[i].writers[id]; w.StatusRow? && w.fence > 0 && w.key in run[i].tables.rows
    ensures var key := run[i].writers[id].key;
            && Decide(Admit(key, 0, now, body), ReadRow(run[j].tables, key)).Superseded?
            && forall w: Write<B> :: w.key == key && w.fence == 0 ==> Txn(run[j].tables, w).None?
  {
    hide MaxRevision, Txn, Decide, FeedOk, Evolves;
    var w := run[i].writers[id];
    RunKeepsInv(c, run, events, i);
    LogKept(run[i], run[i]);
    TxnAbortsIffFenced(run[i].tables, w);
    assert Enabled(c, run[i], events[i]) && run[i + 1] == Next(c, run[i], events[i]);
    if Txn(run[i].tables, w).Some? {
      GaplessOf(run[i].tables);
      RowLands(run[i].tables, w);
      TxnLands(run[i].tables, w);
    }
    assert run[i + 1].tables.rows[w.key].fence > 0;
    RefusedForGood(c, run, events, i + 1, j, w.key, 0, now, body);
  }
}
