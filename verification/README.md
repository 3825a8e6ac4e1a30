# Verification of the enrahitu backend

A Dafny model of the parts of the backend whose correctness is a matter of protocol or of
exact arithmetic rather than of plumbing, with proofs over every input, every interleaving
and every crash point.

- **The control plane** (`ControlTables`, `Admission`, `ControlRuns`, `ControlStore`). The
  resource, outbox and watermark tables as one value; the statements of a transaction, its
  rollback, and the read/transaction protocol of `admit`, `retract` and `setStatus`. A state
  machine interleaves any number of writers, leases, replicas and overlapping passes, each of
  which may stop after any step. A class runs the same code over fields that change in place
  and is proved to stay inside that machine.
- **The renewal loop** (`Calendar`, `Periods`, `Dates`, `DateArithmetic`, `Kinds`, `Renewal`,
  `RenewalLoop`, `RenewalStore`, `RenewalTenancy`, `RenewalController`). Calendar arithmetic on strings down to
  the day ordinals of section 21.4.1 of ECMA-262, the renewal policy and its validators, the
  loop's convergence and its behaviour under crashes, and a refinement of all of it onto the
  control plane's tables.
- **The Decision ledger** (`NumberText`, `Canonical`, `NumberReader`, `JsonReader`, `DecisionChain`, `CrashWindow`, `DecisionLedger`). The
  canonical printer, the hash chain with racing writers, the denial bracket of a process that
  may die anywhere, and the code of both proved against the step machines.
- **Migrations** (`Migrations`, `MigrationRunners`) and **mail** (`MailSchedule`, `MailDelivery`,
  `MailNotices`, `MailRender`, `MailReader`).
- **Scanners and the lock** (`PostgresPlaceholders`, `StatePlaceholders`, `StateLock`).

`dafny verify dfyconfig.toml` checks the whole project.

## How things are modelled

- A row body is any type with equality, so "the stored JSON text is the same" is equality of
  values. Clocks, days, deadlines, relay answers, faults and rivals are inputs.
- A transaction is atomic and rolls back whole when it violates a primary key or the unique
  parent index. A replica read returns any earlier committed state. A consistent read returns
  the current one, and other writers may commit before the transaction that follows it.
- Hashes are a free algebra: one value per parent and record, never a model's own hash.
  A signature is checked by an arbitrary predicate.
- Text in `Canonical` is UTF-16 code units, lone surrogates included, and a number is its sign,
  its fewest digits and where its point falls. Elsewhere text is `string`.
- A writer's fence is any number: the members API passes on what a client sends
  (`backend/members/api.ts:225`, 275, 398, 456). Only the result about the newest token, and
  nothing else, asks that writers send a default, a mark they read or a token they were issued.
- A process is its pid namespace, pid and start time, and the lock's state machine takes it
  that such a triple never comes back.
- The loop's lemmas are about sound books whose terms are days; the membership of `StatusCanBeLost`
  is one that meets every condition they ask for.
- Where code needs one run to be uninterrupted, the store has a flag `alone`; everything else
  is proved with other writers moving between any two statements.

## What turned out to be conditional

- `setStatus` has no tombstone predicate in its transaction, so an outbox row says `deleted`
  exactly when its row is a tombstone if and only if a status write finds the row live at
  commit (`VerbAgreesWithTombstone`).
- `Date.UTC` reads a two-digit year as 19xx, so `addPeriod` clamps as intended except for a
  day after the 28th landing in February of year 0 (`AdvanceIsClamped`).
- Computed days are day strings exactly while the year keeps four digits (`DaysAfterExact`,
  `PeriodAfterExact`). A reconcile that computes a longer one throws. If it throws only after
  a crash has swallowed a new status, that status is lost for good. The condition is exact for
  every sequence of crashes (`CrashesStatusExact`, and `CrashesShowOnTables` on the store), and
  met by a concrete membership (`StatusCanBeLost`). Term and invoices are the same in every case.
- Nothing checks that a client's fence was ever issued. Without that, a holder of the newest
  token can be locked out (`ForgedFenceLocksOut`).
- Two writers that boot different models against an empty ledger can leave two roots
  (`TwoRoots`). A denial still waiting for its bracket can vanish unmarked
  (`QueuedDenialCanBeLost`), and an append that fails without the process dying closes the
  bracket unmarked (`FailedAppendIsUnmarked`). A recorded denial survives a crash, in the chain
  or under a marker, if and only if at the crash it was in the chain or the durable flag was up
  (`DenialIsCoveredExactly`).
- `Ledger.migrate` returns normally if and only if every declared version is recorded. This
  covers a list with a duplicated version too: once all of it is recorded, the runner's
  refusal of the list is reported as a concurrent success (`MigrateLedger`).
- A recorded `sent` is final across passes. Within a pass, a success write that commits while
  its caller sees an error is overwritten by a failure and the message goes out again, twice in
  all with no status write lost (`SuccessCanBeOverwritten`). Sends number at most one plus the
  lost status writes if and only if the recorded success and such passes number at most one
  (`SendBoundExact`).
- A start that cannot write its owner record can be joined by a second live opener
  (`UnwrittenRecordAllowsTwo`): with nobody in, that happens if and only if the first could not
  write and the second passes against the record left behind (`SecondOpenerExact`).

Where the code and its own comments differ the code is followed. `backend/hiq/lock.ts:256-258`
says an old record's host is read as its namespace; the code keeps it apart and compares hosts
(`backend/hiq/lock.ts:174-177`).

## Model

| member | source | states |
|---|---|---|
| ControlTables.TxnAbortsIffFenced | backend/control/admission.ts:164-196 | A transaction aborts if and only if its token is below the mark of an existing row: the skipped row write makes the outbox insert repeat a revision. |
| ControlTables.TxnWithoutRow | backend/control/admission.ts:228-245 | An update of a key that has no row commits and changes nothing. |
| ControlTables.RowLands | backend/control/admission.ts:164-178 | What a row write that passes its fence does to each column: the new row has MAX+1, the caller's fence and time, its own column, and every other column as it was; all other rows are untouched. |
| ControlTables.TxnLands | backend/control/admission.ts:164-196 | A landing transaction is that one row and one outbox row at the same revision, under the write's verb. |
| ControlTables.TxnKeeps | backend/control/schema.ts:80-90 | Every transaction that commits keeps the tables consistent (outbox exactly 1..MAX, each row at its key's largest outbox revision) and only moves forward. |
| ControlTables.RevisionsDistinct | backend/control/admission.ts:118 | No two resources hold the same revision. |
| ControlTables.RaiseKeeps | backend/control/controller.ts:85-94 | A watermark write never lowers a watermark and touches nothing else. |
| ControlTables.VerbAgreesWithTombstone | backend/control/admission.ts:293-311 | The outbox verb agrees with the tombstone flag if and only if a status write commits on a live row. |
| Admission.AtomicRefusal | backend/control/admission.ts:137-143 | Called alone, a request is refused exactly when its token is below a mark it must respect. |
| Admission.AtomicOutcome | backend/control/admission.ts:158-196 | Otherwise its wish holds afterwards, and it spends one revision exactly when its wish did not hold before. |
| Admission.HeldIsQuiet | backend/control/admission.ts:158-160 | Asking for what already holds commits nothing. |
| Admission.RepeatIsQuiet | backend/control/admission.ts:291 | Repeating a request commits nothing the second time. |
| Admission.AtomicColumns | backend/control/admission.ts:170-176 | An admission leaves the status column, a status write leaves the spec, and neither touches another row. |
| Admission.AtomicEntry | backend/control/admission.ts:162-193 | What a request records: nothing, or one outbox entry for its row and time, `created` exactly for an admission that found no live row, `updated` exactly for an admission or a status write that found one, `deleted` exactly for a retraction. |
| Admission.AtomicTimes | backend/control/admission.ts:164-178 | The times and the mark a changing request leaves; only a retraction leaves a tombstone. |
| ControlRuns.OrderedGrows | backend/control/watch.ts:58-65 | Taking the least unselected revision next builds an ordered scan. |
| ControlRuns.ScanCovers | backend/control/watch.ts:58-65 | Nothing selected at or below the revision of a scanned item is missing before it. |
| ControlRuns.ScanExact | backend/control/watch.ts:45-71 | A scan holds exactly the rows above the mark of the watched kinds, all kinds if none is named and tombstones too, strictly ascending, up to its limit. |
| ControlRuns.StaleWatermark | backend/control/controller.ts:76-83 | A watermark read from any stale replica is a revision up to which everything is reconciled now. |
| ControlRuns.BatchIsCovered | backend/control/controller.ts:144-157 | The last reconciled revision of a batch, however stale its scan, is one up to which everything is reconciled now. |
| ControlRuns.CoverageSurvives | backend/control/controller.ts:144-157 | What an earlier committed state covered, every later one covers. |
| ControlRuns.InvStep | backend/control/controller.ts:135-159 | Every step of every writer, whatever fence it sends, and of every lease, replica read and pass keeps the invariant. |
| ControlRuns.NothingMissed | backend/control/controller.ts:76-158 | In every reachable state each watched row at or below the durable watermark has been reconciled at exactly its present revision. |
| ControlRuns.LogPairs | backend/control/admission.ts:111-118 | Of any two committed states the later one only adds revisions above the earlier one's MAX and forgets no outbox row. |
| ControlRuns.RevisionOrderIsCommitOrder | backend/control/schema.ts:80-90 | In every reachable state outbox revisions are exactly 1..MAX, each row holds its key's largest, revisions are distinct, and commits ascend. |
| ControlRuns.ZombieChangesNothing | backend/control/admission.ts:176 | A commit whose token fell below its row's mark, even after the writer's read, changes nothing. |
| ControlRuns.FencesStep | backend/state/lease.ts:36-43 | Such writers keep every mark within what has been issued. |
| ControlRuns.NewestTokenIsNeverRefused | backend/state/lease.ts:36-43 | While writers send a default fence, a mark they read or a token they were issued, the newest token of the guarding lease is refused neither at the read nor in the transaction. |
| ControlRuns.ForgedFenceLocksOut | backend/members/store.ts:84-95 | With any other fence a client can lock the newest token out: a run of two steps that does. |
| ControlRuns.StatusOnlyByStatusWrites | backend/control/admission.ts:170-176 | Between two moments of a run with no status write on a row, its status stays, whatever is admitted or retracted. |
| ControlRuns.RefusedForGood | backend/control/admission.ts:137-143 | A token once below its row's mark is refused ever after, at the read and in the transaction. |
| ControlRuns.VerbIsWhatWasSeen | backend/control/admission.ts:137-193 | Whatever commits between a request and its transaction, the verb it records is about the row as its read saw it. |
| ControlRuns.FirstEntryIsCreated | backend/control/admission.ts:162 | However writers race, the first outbox entry of every row says `created`. |
| ControlStore.Store.NextRevision | backend/control/admission.ts:118 | One more than the largest revision in the table. |
| ControlStore.Store.UpdateRow | backend/control/admission.ts:164-178 | The first statement of a transaction changes exactly the fenced row. |
| ControlStore.Store.CopyToOutbox | backend/control/admission.ts:189-193 | The second statement copies the row's revision and fails on an outbox row that has it already. |
| ControlStore.Store.Transact | backend/control/admission.ts:164-196 | Both statements as one: the specified transaction, or nothing. |
| ControlStore.Store.WriteWatermark | backend/control/controller.ts:85-94 | Raises one watermark, and only to a revision that is covered. |
| ControlStore.Store.ChangesSince | backend/control/watch.ts:45-71 | The batch is an ordered, limited scan of the replica's state, with nothing left out before its end. |
| ControlStore.Store.Admit | backend/control/admission.ts:124-202 | Its answer is what its read decides: refused, unchanged, or a write that then commits or aborts whole at some later committed state, whatever others write in between; stored, it has entered `updated` if its read saw a live row and `created` if not. It submits for its own tenant only, and alone it is the atomic request. |
| ControlStore.Store.Retract | backend/control/admission.ts:211-251 | The same for a retraction, entered as `deleted`. |
| ControlStore.Store.SetStatus | backend/control/admission.ts:273-317 | The same for a status write, entered as `updated`. |
| ControlStore.Store.Replica | backend/control/watch.ts:41-43 | Some committed state, not necessarily the last. |
| ControlStore.Store.ReconcileBatch | backend/control/controller.ts:148-153 | Exactly how many items of the batch are done is fixed by its size, the clock and the item that fails: all of it with clock enough and no failure. What is done is reconciled, and the clock left is counted. |
| ControlStore.Store.Round | backend/control/controller.ts:144-157 | One scan and its batch: why the round ended is the decision of its batch, clock and failure, and one that goes on has made the watermark durable up to what it reconciled. Alone, that watermark is all it changes, and after a throw it is where it was. |
| ControlStore.Store.RunPass | backend/control/controller.ts:135-159 | A pass is a chain of rounds from a watermark that some replica showed, each from where the last ended, durable at every link. It ends because a scan was empty, an item failed or the clock ran out, and says which. Alone it changes nothing but its watermark, to the end of its last completed round; without failures and with clock for every unread row it drains the feed and leaves nothing unread above it. |
| Calendar.OrdinalOrder | backend/members/dates.ts:15-23 | Day ordinals order dates and tell them apart. |
| Calendar.FromOrdinalInverse | backend/members/dates.ts:60-64 | The date of a date's ordinal is that date. |
| Calendar.LeapCycle | backend/members/dates.ts:60-64 | The calendar repeats every 400 years, 146097 days. |
| Calendar.LastOfMonth | backend/members/dates.ts:83-85 | Day zero of the following month is the month's last day. |
| Periods.AdvanceIsClamped | backend/members/dates.ts:75-88 | A period is the clamped one if and only if it does not take a day after the 28th to February of year 0. |
| Periods.AdvanceLater | backend/members/dates.ts:75-88 | Every period lands on a valid day strictly later. |
| Periods.AdvanceMonotone | backend/members/dates.ts:75-88 | A later start never ends earlier. |
| Periods.RepeatClosedForm | backend/members/dates.ts:66-88 | After n periods the month index has advanced by n strides and the day is the least of the first day and the lengths of all months landed in. |
| Periods.EarlyDaysNeverMove | backend/members/dates.ts:66-74 | A term on or before the 28th keeps its day for good. |
| Dates.IsDayExact | backend/members/dates.ts:15-23 | The round trip accepts exactly the shaped strings that name a calendar day. |
| Dates.IsoSliceIsDay | backend/members/dates.ts:63 | A printed instant is a day string exactly for years 0 to 9999, and then it parses back to that day. |
| Dates.FourDigitYears | backend/members/dates.ts:63 | Those years are one interval of day ordinals. |
| Dates.LexicographicIsChronological | backend/members/renewal.ts:107 | On day strings `<` is chronological order, and equal days are equal strings. |
| DateArithmetic.DaysAfterExact | backend/members/dates.ts:60-64 | Adding days is ordinal addition, and gives a day string exactly while the year has four digits. |
| DateArithmetic.DaysAfterComposes | backend/members/dates.ts:60-64 | Sums compose in the string domain. |
| DateArithmetic.DaysAfterUndone | backend/members/dates.ts:60-64 | A shift is undone by the negated shift. |
| DateArithmetic.PeriodAfterExact | backend/members/dates.ts:75-88 | A period gives a day string exactly when its year still has four digits. |
| DateArithmetic.PeriodAfterLater | backend/members/dates.ts:75-88 | That day is strictly later. |
| DateArithmetic.PeriodAfterMonotone | backend/members/dates.ts:75-88 | Order of starts is order of ends, in the string domain. |
| DateArithmetic.AddDays | backend/members/dates.ts:60-64 | The steps on a mutable date compute the specified sum. |
| DateArithmetic.AddPeriod | backend/members/dates.ts:75-88 | The steps on two mutable dates, through the first of the month and the clamp, compute the specified period. |
| DateArithmetic.PaidOnHasHappened | backend/members/dates.ts:49-58 | A payment is dated on a real day that has come, every such day is accepted as given, and an absent one is today. |
| Kinds.ValidatingIsIdempotent | backend/members/kinds.ts:225-266 | A validated membership or invoice validates to itself. |
| Kinds.TrimExact | backend/control/kinds.ts:94-102 | Trimming takes away the white space at both ends, all of it and nothing else. |
| Kinds.MembershipAdmission | backend/members/kinds.ts:225-249 | Which memberships are admitted, and as what. |
| Kinds.InvoiceAdmission | backend/members/kinds.ts:251-266 | Which invoices are admitted, and as what. |
| Renewal.StateTable | backend/members/renewal.ts:73-167 | When each state is reported, one line per state. |
| Renewal.WriteTable | backend/members/renewal.ts:119-154 | When an invoice, a renewal and a notice are planned, what each carries, that a renewal reports its new end, and that no plan makes two of the writes. |
| Renewal.StatusFields | backend/members/renewal.ts:73-167 | Which dates a status carries: a lapse its day, a term that runs or waits its end, a misconfiguration its problem; an invoice is named exactly while one is being raised or holds the term up. |
| Renewal.RunsUntil | backend/members/renewal.ts:107-109 | A running term reads the same on exactly the days before the day it says it renews on. |
| Renewal.LapsedSince | backend/members/renewal.ts:112-114 | A term that ran out for good lapsed on the first day it was not active, whichever day it is read. |
| Renewal.OverdueSince | backend/members/renewal.ts:162-166 | An unpaid invoice leaves the membership pending up to and including the day it is said to have lapsed on, and lapsed with that same day on every day after. |
| Renewal.PaymentKeepsPromise | backend/members/renewal.ts:119-166 | The day a pending membership says it renews on is where its term ends once the invoice is paid. |
| Renewal.Problems | backend/members/renewal.ts:79-105 | The three ways to be misconfigured, as they are told. |
| Renewal.InvoiceNamesAreIdentities | backend/members/renewal.ts:69-71 | Distinct (membership, term) pairs never share an invoice name. |
| Renewal.RaisedInvoiceValidates | backend/members/kinds.ts:251-266 | A planned invoice is admitted as it stands exactly when the name is not blank and its days have four-digit years; its period then ends after it starts. |
| Renewal.RenewedTermValidates | backend/members/kinds.ts:225-249 | A planned term is admitted as it stands exactly when it does not end before it starts. |
| RenewalLoop.RenewedTermShape | backend/members/renewal.ts:149-153 | A renewal keeps the membership and moves its term to the invoice's. |
| RenewalLoop.CrashPoints | backend/members/controller.ts:94-114 | Every way a reconcile can stop: before its one move, after it, or after the status. |
| RenewalLoop.RestIsQuiet | backend/members/controller.ts:64-115 | At rest another reconcile writes nothing and plans no move. |
| RenewalLoop.RestIsReached | backend/members/controller.ts:64-115 | Rest is reached after at most one reconcile more than the distance, and kept. |
| RenewalLoop.DistanceIsLinear | backend/members/controller.ts:64-115 | The distance is at most twice the invoices that are or will be paid, and one. |
| RenewalLoop.ReportsDiffer | backend/members/renewal.ts:119-154 | Two moves in a row never report the same. |
| RenewalLoop.WritesAreLinear | backend/members/controller.ts:64-115 | The writes it takes are at most four per paid invoice plus three. |
| RenewalLoop.NoChangeAtRest | backend/control/admission.ts:158-160 | At rest no write is a change. |
| RenewalLoop.CrashConfluence | backend/members/controller.ts:64-115 | However many reconciles die wherever, rest has the same term and invoices, and the same status unless the reconcile at rest throws. |
| RenewalLoop.CrashStatusExact | backend/members/controller.ts:94-114 | One crash can change the final status if and only if the move leads to where the next reconcile throws and a new status was still unwritten. |
| RenewalLoop.CrashesStatusExact | backend/members/controller.ts:94-114 | Some sequence of crashes changes it if and only if the membership moves, the reconcile where its moves end throws, and either it moves more than once or its one report is not the stored status. |
| RenewalLoop.StatusCanBeLost | backend/members/dates.ts:87 | A paid term ending in year 9999 is such a case. |
| RenewalStore.WriteRefines | backend/members/controller.ts:94-114 | A write of a plan on the tables is that write on the membership's books. |
| RenewalStore.WriteCosts | backend/control/admission.ts:158-160 | It commits one revision if it changes the books and none if it does not. |
| RenewalStore.WriteMarks | backend/members/controller.ts:88-114 | The mark a write leaves: none on an invoice, the one that was read on a renewed term, the pass's token on what it observed. |
| RenewalStore.PostedElsewhere | backend/members/controller.ts:133-190 | Raising a notice commits one revision at most and touches no membership, invoice or tier. |
| RenewalStore.PostedOnce | backend/members/controller.ts:176-190 | Raising the same notice again changes nothing. |
| RenewalStore.NoticeWithMove | backend/members/controller.ts:94-114 | A reconcile has a notice to raise exactly when it moves; one that throws writes nothing. |
| RenewalStore.WritesRefine | backend/members/controller.ts:94-114 | A plan's writes and its notice, in order, are its writes on the books; each change spends one revision and a notice at most one. |
| RenewalStore.ReconcileRefines | backend/members/controller.ts:64-115 | A reconcile on the tables is a reconcile on the books, with one revision for each change and at most one more for the notice of a move. |
| RenewalStore.GetsThroughUnlessFails | backend/members/controller.ts:64-115 | No statement of a reconcile throws exactly when the reconcile on the books does not. |
| RenewalStore.GoesQuiet | backend/members/controller.ts:64-115 | On the tables, after that many reconciles another one returns the very same tables. |
| RenewalStore.RevisionsToQuiet | backend/members/controller.ts:64-115 | The revisions committed on the way are at most the writes to rest and a notice for each step of the distance. |
| RenewalStore.RevisionsAreLinear | backend/members/controller.ts:64-115 | That is at most six for each invoice that is or will be paid, and four. |
| RenewalStore.CrashRefines | backend/members/controller.ts:94-114 | A reconcile killed after any of its statements is a crash on the books. |
| RenewalStore.CrashThenQuiet | backend/members/controller.ts:64-115 | Kill any number of reconciles anywhere and let the loop run: membership and invoices end where they would have ended, and the status too unless the reconcile at rest throws. |
| RenewalStore.CrashesShowOnTables | backend/members/controller.ts:94-114 | On the store too the crashes can show in the final status exactly when the books say so. |
| RenewalTenancy.ReconcileIsIsolated | backend/members/controller.ts:55-63 | In two stores that agree on the tenant's rows, whatever else they hold, a reconcile plans the same and leaves the tenant's rows the same. |
| RenewalTenancy.ReconcileKeepsOthers | backend/members/controller.ts:55-63 | A reconcile leaves every row of another tenant as it was. |
| RenewalTenancy.BilledAtOwnTier | backend/members/controller.ts:73-96 | A due membership without a live invoice gets one, at what its own tenant's tier costs and for the period it gives, unless its name is blank or its days leave four-digit years. |
| RenewalTenancy.GoneTierIsInvalid | backend/members/renewal.ts:79-83 | Without a live tier row in its own tenant a membership is reported invalid, and why. |
| RenewalTenancy.PaidIsRenewed | backend/members/renewal.ts:144-154 | A paid term is taken up: membership and status run to the end the invoice says. |
| RenewalTenancy.ComposeExact | backend/members/controller.ts:133-175 | A letter is composed exactly when there is something to say to somebody, and says what the rows say. |
| RenewalTenancy.MoveIsTold | backend/members/controller.ts:94-114 | Whoever is billed or renewed has a reminder or a receipt in the store afterwards, saying what the rows then say. |
| RenewalController.ReadTier | backend/members/controller.ts:73 | It reads the live tier row of its own tenant in some committed state, or nothing; alone, in the current one. |
| RenewalController.ReadInvoice | backend/members/controller.ts:74-78 | Alone, it reads the live invoice of the term being billed, if there is one. |
| RenewalController.Submit | backend/members/controller.ts:94-114 | Alone, one write of a plan under the fence the code passes with it. |
| RenewalController.ComposeNotice | backend/members/controller.ts:133-175 | Alone, it reads the member and the tenant and addresses the notice, or nobody. |
| RenewalController.RaiseDuesNotice | backend/members/controller.ts:133-190 | Alone, it raises the composed notice if the validator and the store take it, and otherwise changes nothing. |
| RenewalController.SubmitPlan | backend/members/controller.ts:94-114 | The plan's writes and its notice in order, each only if the one before did not throw. |
| RenewalController.ReconcileMembership | backend/members/controller.ts:64-115 | Alone, it leaves exactly the tables of a reconcile, notice included, throws exactly when that does, and leaves an absent membership alone; with others writing, it still submits for its own tenant only. |
| NumberText.LexemeTells | backend/kernel/decisions.ts:116 | Two finite numbers print alike only if they are the same number (section 6.1.6.1.20 of ECMA-262). |
| NumberReader.NumberOfValue | backend/kernel/decisions.ts:116 | The number a numeral is read as has the numeral's decimal value. |
| NumberReader.LexemeIsRead | backend/kernel/decisions.ts:116 | Every printed number reads as itself, by the grammar of section 6 of RFC 8259, with what follows left over. |
| NumberReader.LexemeShape | backend/kernel/decisions.ts:116 | Which numbers are written with an exponent, a point and a sign, and that no digit is one too many (section 6.1.6.1.20 of ECMA-262). |
| Canonical.EscapeUnambiguous | backend/kernel/decisions.ts:112 | Quoted text determines the string and where it ends, lone surrogates and control characters included (section 7 of RFC 8259). |
| Canonical.PrintUnambiguous | backend/kernel/decisions.ts:108-117 | A printed value followed by anything that cannot extend a number determines the value up to key order, and what follows. |
| Canonical.MembersUnambiguous | backend/kernel/decisions.ts:110-114 | Printed members determine their keys, values and end. |
| Canonical.ItemsUnambiguous | backend/kernel/decisions.ts:109 | Printed items determine their values, number and end. |
| Canonical.SortAscends | backend/kernel/decisions.ts:111-112 | Distinct keys sort strictly by code units. |
| Canonical.SamePrintsAlike | backend/kernel/decisions.ts:108-117 | Values equal up to key order at every depth print alike. |
| Canonical.CanonicalExact | backend/kernel/decisions.ts:108-117 | Two values print alike if and only if they are equal up to key order at every depth, numbers as numbers. |
| JsonReader.StringIsRead | backend/kernel/decisions.ts:112 | A quoted string reads as the string, by the escapes of section 7 of RFC 8259. |
| JsonReader.SortOrders | backend/kernel/decisions.ts:111-112 | Members are moved into the order of their keys' code units and are otherwise the same. |
| JsonReader.PrintIsRead | backend/kernel/decisions.ts:108-117 | A printed value reads, by the grammar of RFC 8259, as the same value with members in order, and what follows is left over. |
| JsonReader.CanonicalIsRead | backend/kernel/decisions.ts:108-117 | So a canonical text reads as its value, in full. |
| JsonReader.EscapedIsEncodable | backend/kernel/decisions.ts:112 | Quoted text has no lone surrogate, even if the string has. |
| JsonReader.UnitIsEncodable | backend/kernel/decisions.ts:112 | Numeric escapes are in lower case. |
| JsonReader.SpellingIsShortest | backend/kernel/decisions.ts:112 | No other spelling of the string without lone surrogates is shorter (section 25.5.2.3 of ECMA-262). |
| DecisionChain.FreeIsTip | backend/kernel/decisions.ts:47-49 | In a chain a parent is still unclaimed exactly when it is the newest hash. |
| DecisionChain.HeadDeterminesChain | backend/kernel/decisions.ts:302-305 | The newest hash fixes every record before it and the model it started from. |
| DecisionChain.InsertIsCas | backend/kernel/decisions.ts:289-320 | An insert goes through exactly when nobody moved the head since it was read, and then extends the chain by one; otherwise the append tries again, or has lost if it was the third time. |
| DecisionChain.StepKeepsInv | backend/kernel/decisions.ts:289-331 | Every step of every writer keeps the invariant. |
| DecisionChain.RunIsLinear | backend/kernel/decisions.ts:47-49 | At every moment of every run the table in sequence order is one chain from the model, growing a record at a time. |
| DecisionChain.RunOutcomes | backend/kernel/decisions.ts:321-330 | A finished append wrote exactly one record, any other none, and one that lost gave up only after three records of others landed while it tried. |
| DecisionChain.TwoRoots | backend/kernel/decisions.ts:299-300 | For any two different models there is a run against an empty table that leaves two roots. |
| DecisionChain.VerifySignatures | backend/kernel/decisions.ts:443-468 | Accepts exactly the chains in which, from the first signed record on, every record carries a valid signature. |
| DecisionChain.AppendKeepsSigned | backend/kernel/decisions.ts:306-313 | An append keeps that verdict exactly when it signs validly or nobody has signed yet. |
| CrashWindow.StepKeepsInv | backend/kernel/decisions.ts:170-176 | Every step of a process that may die anywhere keeps the bracket's invariant. |
| CrashWindow.CrashWindowIsMarked | backend/kernel/decisions.ts:230-250 | Once a later process has initialised, each denial inside the bracket at a crash is in the chain or a marker was appended after it joined. |
| CrashWindow.CrashIsMarkedExactly | backend/kernel/decisions.ts:230-250 | After a crash the first later process to initialise has appended a marker if and only if the durable flag was up at the crash, also where appends fail. |
| CrashWindow.MarkedExactly | backend/kernel/decisions.ts:230-250 | Between two moments with an initialised process a marker was appended if and only if a process died in between with the flag up. |
| CrashWindow.DenialIsCoveredExactly | backend/kernel/decisions.ts:170-176 | So a recorded denial is in the chain or marked after the recovery if and only if at the crash it was in the chain or the flag was up. |
| CrashWindow.RecoveryUntilVerified | backend/kernel/decisions.ts:252-258 | A stored chain that does not verify leaves all of the recovery but being ready. |
| CrashWindow.MarkIsOwed | backend/kernel/decisions.ts:230-250 | While recovery is to come or under way, an unrecorded denial keeps the durable flag up, so a crash in recovery loses no marker. |
| CrashWindow.RecoveryCompletes | backend/kernel/decisions.ts:205-259 | Left alone, a start appends genesis if owed and a marker if the flag was up, clears the flag and is ready within five steps. |
| CrashWindow.NewestGenesis | backend/kernel/decisions.ts:211-217 | The chain's model is the one of its newest genesis record. |
| CrashWindow.RecoveryAnchors | backend/kernel/decisions.ts:211-233 | Recovery leaves the chain on the booted model. |
| CrashWindow.PlainOperationCompletes | backend/kernel/decisions.ts:334-344 | A queued append that is no denial lands its record, and a bare initialisation nothing. |
| CrashWindow.MarkerMeansCrash | backend/kernel/decisions.ts:230-250 | There is no marker without an earlier crash while the flag was up. |
| CrashWindow.QueuedDenialCanBeLost | backend/kernel/decisions.ts:387-396 | A denial recorded before its bracket opens can vanish unmarked. |
| CrashWindow.FailedAppendIsUnmarked | backend/kernel/decisions.ts:399-405 | An append that fails in a living process closes the bracket unmarked. |
| DecisionLedger.Table.Head | backend/kernel/decisions.ts:296-298 | The row with the largest sequence number is the last of the chain. |
| DecisionLedger.Table.Insert | backend/kernel/decisions.ts:314-317 | Succeeds exactly on the current tip, and uses up a number either way. |
| DecisionLedger.Table.AppendUnlocked | backend/kernel/decisions.ts:284-332 | The loop, which rebuilds its record for each head it reads, succeeds exactly when one of its three attempts meets no rival; the record built on that head is then the new head, and otherwise it has written nothing. |
| DecisionLedger.Ledger.RecordDenial | backend/kernel/decisions.ts:386-387 | Queues the denial as the step machine does. |
| DecisionLedger.Ledger.InitUnlocked | backend/kernel/decisions.ts:205-259 | A no-op once initialised, otherwise the step machine's whole recovery, or all of it but being ready if the chain does not verify. |
| DecisionLedger.Ledger.OpenBracket | backend/kernel/decisions.ts:390-396 | The flag is durable before the append, and all waiting denials join. |
| DecisionLedger.Ledger.LeaveBracket | backend/kernel/decisions.ts:399-405 | The last pending denial closes the bracket, any other leaves it open. |
| DecisionLedger.Ledger.RunDenial | backend/kernel/decisions.ts:388-405 | A queued denial runs the step machine's steps, lands its record, and closes the bracket exactly when it is the last. |
| Migrations.PendingIsTail | backend/admin/schema-plan.ts:25-29 | Against a recorded prefix the plan is the rest of the release's list, in order. |
| Migrations.PendingIsExact | backend/admin/schema-plan.ts:25-29 | A migration is in the plan if and only if its version is not recorded. |
| MigrationRuns.AdvanceKeepsInv | backend/core/ledger/migrations.ts:77-93 | A runner's next step keeps the recorded versions a prefix of the list. |
| MigrationRuns.AdvanceIsCas | backend/state/migrate.ts:95-113 | A runner's next step commits exactly where the record ends, passes by what it saw recorded, and stops at what a rival recorded since. |
| MigrationRuns.RacingMigrations | backend/state/migrate.ts:95-113 | However runners race and die, commits are a prefix of the list in order, no runner is refused as out of order, a finished runner left its whole list recorded, and the plan is exact. |
| MigrationRuns.RecordOnlyGrows | backend/state/migrate.ts:103-109 | Each step records nothing or exactly the next version. |
| MigrationRunners.Validate | backend/state/migrate.ts:48-69 | Accepts exactly the strictly ascending lists with statements, and otherwise names the first offender and its fault. |
| MigrationRunners.FirstFault | backend/state/migrate.ts:48-69 | The fault named is a version that was there already, one below its predecessor, or nothing to do. |
| MigrationRunners.FirstDuplicate | backend/core/ledger/migrations.ts:66-71 | The sorted list is free of duplicates, or two neighbours share the reported version. |
| MigrationRunners.Table.Migrate | backend/state/migrate.ts:80-113 | Whatever rivals record and whichever transaction fails: an unsound list changes nothing, success means all is recorded and reports what was missing; undisturbed it succeeds and adds exactly that. |
| MigrationRunners.Table.ApplyOrdered | backend/core/ledger/migrations.ts:73-95 | The same for the forward-only loop, and an out-of-order refusal has committed nothing. |
| MigrationRunners.Table.RunMigrations | backend/core/ledger/migrations.ts:65-96 | The same for a list in any order; a duplicate is refused exactly when there is one. |
| MigrationRunners.Table.MigrateLedger | backend/core/ledger/ledger.ts:131-164 | Returns normally if and only if every declared version is recorded, with the new versions ascending, the highest one, and whether another runner did the work. |
| MailSchedule.FailureLeadsTo | backend/mail/schedule.ts:51-99 | After the k-th failure the next attempt is due from exactly 1, 2, 4, 8 or 16 minutes on, and after the sixth never; the error is kept up to 500 characters. |
| MailSchedule.SuccessLeadsTo | backend/mail/schedule.ts:72-110 | A success is dated and counted and never tried again. |
| MailDelivery.Notice.Deliver | backend/mail/controller.ts:49-93 | One pass over a notice, whatever the relay, the status writes and the process do, and what it reports for each: sent exactly when the relay took it and the write was acknowledged, given up exactly on a recorded sixth failure. |
| MailDelivery.PassKeepsInv | backend/mail/schedule.ts:72-110 | Every pass keeps attempts, failure times and sends accounted for. |
| MailDelivery.DeliveryBounds | backend/mail/schedule.ts:51-110 | Over every run: at most six attempts, recorded failures k and k+1 at least 60000 * 2^(k-1) ms apart, and sends number the recorded one plus the lost and the overwritten ones. |
| MailDelivery.GivingUpTakesTime | backend/mail/schedule.ts:82-99 | Giving up takes six recorded failures over at least 60000 * 31 ms. |
| MailDelivery.TerminalIsAbsorbing | backend/mail/schedule.ts:72-80 | Once sent or failed, no later event changes the status or sends again. |
| MailDelivery.OverwriteExact | backend/mail/controller.ts:74-86 | A pass overwrites a success exactly when it attempts, the relay takes the message, the success write commits unacknowledged and the failure write is stored. |
| MailDelivery.SendBoundExact | backend/mail/controller.ts:74-86 | Over every run, sends are at most one plus the lost writes if and only if the recorded success and such passes number at most one. |
| MailDelivery.NothingOverwritten | backend/mail/controller.ts:74-79 | Without unacknowledged success writes there is no such pass and the bound holds. |
| MailDelivery.SuccessCanBeOverwritten | backend/mail/controller.ts:74-79 | With one, the delivered notice is pending again and goes out a second time, with no write lost. |
| MailNotices.RaiseKeepsStatus | backend/control/admission.ts:170-176 | In every run, raises that race with a delivery leave the notice's status as the last status write left it. |
| MailNotices.DeliveredNoticeRefusesRaise | backend/mail/notice.ts:46-57 | In every run, once a delivery has committed under its lease's token an unfenced raise is refused for good, at the read and in the transaction. |
| MailRender.EscapeIsOnePass | backend/mail/render.ts:27-34 | The five sequential replacements are one map over characters. |
| MailRender.MatchEscaped | backend/mail/render.ts:15 | Escaping neither makes nor breaks a placeholder and leaves it character for character. |
| MailRender.EscapeCommutes | backend/mail/render.ts:36-51 | Substituting escaped values into the escaped source is escaping the substituted text, the first missing parameter included. |
| MailRender.RenderIsEscapedText | backend/mail/render.ts:67-83 | Rendering fails exactly when the plain substitution does; otherwise the HTML part is the text's own trimmed paragraphs, each escaped. |
| MailRender.BracketsAreGenerated | backend/mail/render.ts:75-80 | The HTML part is a sequence of generated `<p>`, `</p>` and `<br>` tags and of characters that are no angle bracket. |
| MailReader.HtmlShowsTheText | backend/mail/render.ts:67-83 | Read as HTML, with tags and character references resolved, the HTML part shows exactly the text's paragraphs. |
| MailReader.SplitIsCut | backend/mail/render.ts:76 | The text is cut at whole runs of two newlines or more, and nowhere else. |
| MailReader.KeptIsReadable | backend/mail/render.ts:77-78 | The pieces kept are those with something to read, in order, trimmed. |
| MailReader.TemplateIsFilled | backend/mail/render.ts:36-51 | A template of words and placeholders, with any white space in the braces, renders to the words with the values in place, or fails on the first key without one. |
| MailReader.NoPlaceholderIsCopied | backend/mail/render.ts:36-51 | Text without double braces is left as it is. |
| PostgresPlaceholders.SplitIsFaithful | backend/core/ledger/postgres.ts:49-142 | Every statement splits into segments that fit where they stand and lose nothing, unterminated ones included. |
| PostgresPlaceholders.SplitIsUnique | backend/core/ledger/postgres.ts:49-142 | Any well-formed splitting is the one the scanner finds. |
| PostgresPlaceholders.CopyQuoted | backend/core/ledger/postgres.ts:58-96 | The loop over a literal or identifier stops where the segment ends. |
| PostgresPlaceholders.CopyLine | backend/core/ledger/postgres.ts:98-105 | The same for a line comment. |
| PostgresPlaceholders.CopyBlock | backend/core/ledger/postgres.ts:107-120 | The same for a block comment. |
| PostgresPlaceholders.TranslatePlaceholders | backend/core/ledger/postgres.ts:49-142 | The scanner computes the translation of the segments. |
| PostgresPlaceholders.TranslationIsSegmentwise | backend/core/ledger/postgres.ts:38-48 | The k-th placeholder becomes `$k`, every other segment stays as written, and undoing the numbering gives the statement back. |
| StatePlaceholders.BindsIffAscending | backend/state/placeholders.ts:20-24 | Binding by first appearance and by number agree exactly when first appearances are numbered 1, 2, 3, ... |
| StatePlaceholders.PiecesOccur | backend/state/placeholders.ts:53-83 | In a statement made of plain text, lone dollars, numbered placeholders and quoted literals, doubled quotes and all, the placeholders are the numbered ones and none is in a literal. |
| StatePlaceholders.UnclosedHidesTheRest | backend/state/placeholders.ts:60-67 | A literal that is never closed hides the rest. |
| StatePlaceholders.AssertPlaceholderOrder | backend/state/placeholders.ts:53-86 | Accepts a statement if and only if each placeholder outside string literals is bound to the parameter its number names, returns the distinct count, and otherwise reports the first offence. |
| StatePlaceholders.ScanOccurrences | backend/control/watch.ts:52-65 | The feed's statement for any number of kinds has placeholders 1 to one more than that number. |
| StatePlaceholders.ScanIsAccepted | backend/control/watch.ts:52-65 | So the guard accepts it, however many kinds are watched. |
| StateLock.DataDir.Reclaim | backend/hiq/lock.ts:330-368 | The outcome, the lock and the record after a start are those of the specified verdict, file faults included; under another node's record lock and record stay. |
| StateLock.DataDir.WriteOwner | backend/hiq/lock.ts:287-305 | Records this process, or leaves the record if it cannot be written. |
| StateLock.IsRunning | backend/hiq/lock.ts:153-159 | An owner counts as running if its pid runs and its start time, where readable, matches. |
| StateLock.HolderIsSafe | backend/hiq/lock.ts:338-362 | A start beside a live holder leaves its lock alone, unless it is that holder. |
| StateLock.ForeignVolumeIsKept | backend/hiq/lock.ts:344-348 | A start under another node's record is refused and changes nothing at all. |
| StateLock.ForeignStartsChangeNothing | backend/hiq/lock.ts:344-348 | However many other nodes start, lock and record stay and nobody gets in. |
| StateLock.StartRecordsItself | backend/hiq/lock.ts:287-305 | A start that gets in leaves the record of itself and the lock. |
| StateLock.OutcomeExact | backend/hiq/lock.ts:350-367 | Against the record of a process each outcome is a fact about it: alive, gone, of a gone namespace, or the starter itself. |
| StateLock.PidAloneDecides | backend/hiq/lock.ts:146-177 | Where no start time can be compared the pid decides, in its namespace or on its host. |
| StateLock.OtherHostIsGone | backend/hiq/lock.ts:174-177 | An older record of another host is cleared. |
| StateLock.NoRecordIsCleared | backend/hiq/lock.ts:332-342 | A lock without a usable record is cleared, and no lock is claimed. |
| StateLock.ReleasedIsClaimed | backend/hiq/lock.ts:332-333 | After an orderly stop any node gets in. |
| StateLock.FailsWhereItWouldClear | backend/hiq/lock.ts:318-328 | A start fails exactly where it would clear a lock it cannot remove. |
| StateLock.StepKeepsInv | backend/hiq/lock.ts:330-368 | Every start, death, orderly stop and recreated container keeps the invariant. |
| StateLock.AtMostOneOpener | backend/hiq/lock.ts:330-368 | At most one live process ever holds the state machine, and the lock is there while it does. |
| StateLock.DeadOwnerIsCleared | backend/hiq/lock.ts:354-367 | A start of the same node clears a dead owner's lock, whoever has the old pid by now. |
| StateLock.NextStartRecovers | backend/hiq/lock.ts:330-368 | In every run the next start of the same node after the owner's death holds the state machine. |
| StateLock.SecondOpenerExact | backend/hiq/lock.ts:330-368 | With no holder, two starts of different processes both end up holding if and only if the first could not write its record and the second passes against the record there was. |
| StateLock.UnwrittenRecordAllowsTwo | backend/hiq/lock.ts:299-303 | A holder that could not write its record can be joined by a second. |

## Left out

- The engines themselves (the raft group, libSQL, Postgres): only atomic transactions, key violations and replica reads are modelled.
- Capability checks, record building, chain verification in native code and Ed25519: an abstract hash and an abstract signature predicate stand in.
- The Decision appended after an admission, the kind registry and the tenant check of admission (`backend/control/admission.ts:94-107`): they do not touch the tables.
- Notify and the waker: a latency hint. Every property holds without it.
- RenewalStore.Compose: does not print the notice's subject, amounts and tier label; it keeps what they are made of (address, names, invoice, payment date), and an arbitrary function stands for the mail kind's validator.
- The sweeps over memberships and notices, their deadlines and counters, and the waiting for the schema: they only call what is modelled.
- Renewal: a membership name is what an invoice refers back to, so a name with white space at its ends is trimmed by the invoice validator; the loop is proved for books in which it is not blank.
- Instants outside the range of a time value, except that `AddDays` fails there as the language does.
- `Date` parsing of strings that do not have the shape of a day: `isDay` refuses them before it parses.
- `undefined` and non-finite numbers: not JSON values.
- CrashWindow.CrashWindowIsMarked: is for appends that fail only by the process dying; with other store errors the flag decides (`CrashIsMarkedExactly`, `DenialIsCoveredExactly`).
- The recovery's own statements that create tables and columns are one step with the read of the flag; a column probe or index build that fails stops the process.
- StatePlaceholders.AssertPlaceholderOrder: placeholder numbers are unbounded, so the number an error reports is not rounded beyond 2^53.
- MailRender: parameters are a map of strings; names an object inherits from its prototype are not modelled.
- MailDelivery.DeliveryBounds: passes follow one another and read the status afresh; two overlapping passes of an expired lease are not modelled for mail.
- MailSchedule: instants are milliseconds; the text form of a timestamp is taken to keep them.
- StateLock: the path where no data directory is configured, and the log line of each outcome.
- Sockets, the SMTP conversation, HTTP, authentication, frontends, tracing, metrics and scripts.
