# BridgeXtra: a verified model of the airtime-credit engine

BridgeXtra lends airtime through a telco and takes the money back from later recharges. Its money rules are guarded SQL
statements composed into all-or-nothing transactions, plus integer arithmetic. This project models those rules in Dafny
and proves what they keep over every run. Each `.dfy` file is one module:

- **The credit book.** `BookTables` (rows and SQL statements), `BookSteps` (transactions, commands and runs), `BookInvariant`,
  `BookMoney`, `BookOrigination`, `BookReferences`, `BookReversal`, `BookIngest`, `BookSafety`, `BookWriteOff` (each step, in closed
  form, and what it keeps), `BookRuns` (all runs), `BookChecks` (the invariant sweeps), `BookAnswers` (replays and round trips),
  `BookQueue` and `BookParking` (the parking queue over runs),
  `BookStore` and `BookService` (the tables and the services in place: methods with the source's loops, branches and rollbacks,
  each proved to do what the pure step does), `Pricing` (the offer ladder that feeds the book).
- **Ledger.** `Ledger` (posting, at-most-once, the canonical line text), `Templates` (symbolic balance and rendering).
- **Fulfilment.** `Fulfilment` (platform, network and telco), `Breaker` (circuit breaker and outcome classification).
- **Recharge webhook.** `Recharge` (claims, daily counter, four-eyes holds, overlapping deliveries).
- **Rates, scores, arithmetic.** `TokenBucket`, `Scoring`, `Monetary`, `Outlook`, `MoneyFormat`.
- **Agreement cores.** `Outbox`, `ConfigHistory`, `Paging`, `Like`, `ScoringCycles`.
- **Support.** `Common`, `Arith`, `Int64`, `Seqs`, `Sorting`, `Text`, `Maps`.

Conventions. A transaction is one atomic step; a failed one leaves the tables as they were. Generated ids are row numbers;
hashes that stand for equality of fields are modelled by the fields themselves. Times, configuration and the answers of the
telco are parameters. Int64 wrap-around is explicit in `Int64`, `Monetary`, `Ledger`, `Scoring`, `Outlook`, `Pricing` and
`MoneyFormat`.

What the model found the code not to do, each with a lemma that gives an input and, where one exists, the exact condition:

- INV-001 can be violated by the crash-recovery path: an enquiry that stays unknown moves a SENT attempt to UNKNOWN while the
  advance is still PENDING_FULFILMENT; the later confirmation then guards on SENT, matches no row, and the "not found" is
  swallowed (`BookChecks.ConfirmOffends`, `RescheduleAligned`, `UnknownThenConfirmedOffends`).
- A parked reversal for more than its original brings makes the original's ingest fail each time it comes in while its
  subscriber has a live advance, although the comment says a parked reversal must not sink its original; only collisions are
  guarded (`BookSafety.IngestOutcome`, `BookQueue.SunkForEver`, `BookAnswers.ParkedReversalSinksIngest`).
- Applying one reversal closes the parked row of a different reversal of the same original, which was never applied; only a
  resend by the telco still applies it, and without headroom that resend is refused, not parked (`BookAnswers.ClosedRowApplied`,
  `BookParking.ClosedUnapplied`, `BookQueue.OnlyResendApplies`, `ResendAppliesIff`).
- A FULFILMENT_FAILED advance stays credited when the instruction lands after a NOT_FOUND answer, or when one copy lands and
  another is refused at the edge (`Fulfilment.AtMostOneCredit`, `LateLandingLosesMoney`, `SecondCopyRefusedLosesMoney`).
- A half-open probe lost before the dial blocks the circuit for ever (`Breaker.BlockedIff`, `LostProbeBlocksForever`); a late outcome
  of a call admitted before the trip decides the circuit in the probe's place (`Breaker.ProbeDecidesIff`, `StaleOutcomeCloses`).
- A failing fresh delivery gives back the claim a second delivery is booking under, so a rejected event can be booked and the
  ceiling passed (`Recharge.OverlapBooksRejected`).
- The token bucket's statement reads the clock several times: it can grant without spending, or lose refill, for as long as its
  readings straddle a milli-token, even on a clock that runs forward. Tokens stay within the quota; the calls let through do not
  (`TokenBucket.GrantIsSpendIff`, `StraddlingNeverPays`, `FreeGrantsUnbounded`, `SharedQuotaHolds`).
- Posting sums lines in unchecked int64, so a journal of debits only can pass (`Ledger.UnboundedSumsWrap`); two journals of
  different lines can share a canonical text when an account code hides a line (`Ledger.CanonicalIsMultiset`, `LineBreakClash`).
- CAP_TO_STARTER, a penalty, can raise the tier (`Scoring.SpikeLiftsIff`, `SpikePays`).
- The "fits int64" comment of the ratio split fails for the least int64 and a single ratio (`Monetary.QuotientFits`).
- An activation dated before the current version's start makes windows overlap; the EXCLUDE constraint sees ACTIVE rows only
  (`ConfigHistory.BackdatingOverlaps`, `BackdatedRun`).
- A scheduler that marks or binds a cycle another one has since taken over and closed reopens it, or renames the file it was
  scored from (`ScoringCycles.StepKeepsClosedIff`, `ClosedStaysClosedIff`, `FilesStayIff`, `OverstayReopens`, `LateBindRenames`).
- STALLED is documented as "nothing in the window" but is decided by a zero net (`Outlook.ClawedBackReadsStalled`); a huge debt
  overflows to negative weeks, to a range cut short, or upside down (`Outlook.ProjectionIsHonestIff`, `RangeInOrderIff`,
  `HugeDebtGoesNegative`, `SlowCadenceIsCut`, `RangeUpsideDown`).
- The least int64 is displayed with minus signs inside its figures, under any decimals (`MoneyFormat.DisplayReadsBack`).

## Model

| member | source | states |
|---|---|---|
| BookRuns.RunsKeepInv | backend/internal/invariants/invariants.go:41-153 | from funded pools and empty tables, every state reached by any sequence of accept, outcome, reschedule, ingest, reverse, retry and write-off transactions satisfies the joint invariant: pool utilised and reserved equal the open sums, reserved + utilised within committed, receivable balance equals open outstanding, UNEARNED_FEE equals the unrecovered deferred fee, outstanding is repayment minus net allocations, one open advance per subscriber, balanced journals, unique keys, and the references between rows |
| BookRuns.StepKeepsInv | backend/internal/repo/tx.go:20-50 | each transaction, committed or rolled back, keeps that invariant |
| BookChecks.RunsPassSweeps | backend/internal/invariants/invariants.go:41-153 | after any run INV-004, 006, 001b, 013, 014, 002, 015, 016, 017, 003, 018 and 019 find no offender |
| BookChecks.InvPassesSweeps | backend/internal/invariants/invariants.go:41-153 | the invariant implies every one of those sweeps |
| BookChecks.RunsPassInv001 | backend/internal/invariants/invariants.go:52-58 | INV-001 also holds throughout every run that never reschedules an attempt still marked SENT |
| BookChecks.ConfirmOffends | backend/internal/usecase/origination/origination.go:1330-1336 | a confirmed outcome leaves an INV-001 offender if and only if the attempt is not in the state guessed from the advance (nor already confirmed) |
| BookChecks.RescheduleAligned | backend/internal/repo/recovery.go:198-205 | rescheduling breaks the agreement of attempt and advance exactly when the attempt is still SENT |
| BookChecks.UnknownThenConfirmedOffends | backend/internal/usecase/fulfilmentresolver/resolver.go:95-140 | a three-step run from an empty book that ends in an INV-001 offender |
| BookOrigination.AcceptGoesThrough | backend/internal/usecase/origination/origination.go:985-1125 | the confirm transaction fails with the one-active conflict, then with no capacity, and else yields exactly one advance awaiting fulfilment and one reservation of its repayment on the first pool with headroom |
| BookOrigination.ResolveGoesThrough | backend/internal/usecase/origination/origination.go:1311-1390 | on a pending advance each outcome yields exactly its state, pool movement and (for confirmed) issue journal; no statement can fail |
| BookOrigination.AcceptKeepsCore | backend/internal/usecase/origination/origination.go:985-1125 | accepting keeps every money cross-check |
| BookOrigination.ConfirmKeepsCore | backend/internal/usecase/origination/origination.go:1330-1368 | activating moves the reservation to utilisation, the receivable and the unearned fee together |
| BookOrigination.FailKeepsCore | backend/internal/usecase/origination/origination.go:1370-1385 | failing releases the reservation and nothing else |
| BookOrigination.UnknownKeepsCore | backend/internal/usecase/origination/origination.go:1387-1411 | an unknown outcome moves no money |
| BookSafety.AcceptKeepsInv | backend/internal/usecase/origination/origination.go:824-1125 | the confirm transaction keeps the whole invariant |
| BookSafety.ResolveOutcome | backend/internal/usecase/origination/origination.go:1311-1425 | in a reachable state an outcome is refused only for a missing advance, and keeps the invariant |
| BookSafety.RescheduleKeepsInv | backend/internal/repo/recovery.go:198-205 | rescheduling keeps the invariant |
| BookMoney.DivideCovers | backend/internal/usecase/recovery/recovery.go:1085-1139 | the waterfall consumes the whole amount whenever both components hold it, and touches the second component only when the first is exhausted |
| BookMoney.RecoveryGoesThrough | backend/internal/usecase/recovery/recovery.go:325-391 | a recovery of at most the outstanding goes through on every live advance, with the split, state, pool and journal stated in closed form |
| BookMoney.RecoveryKeepsCore | backend/internal/usecase/recovery/recovery.go:325-391 | and it keeps every money cross-check |
| BookSafety.IngestOutcome | backend/internal/usecase/recovery/recovery.go:80-145 | an ingest is refused if and only if the amount is not positive, the source id is reused with another payload, or a parked reversal of it cannot be applied; otherwise it keeps the invariant |
| BookIngest.QuarantineGoesThrough | backend/internal/usecase/recovery/recovery.go:1013-1033 | with no recoverable advance the whole amount is held in suspense with its journal |
| BookIngest.IncomeGoesThrough | backend/internal/usecase/recovery/recovery.go:974-1005 | after a write-off the money is booked as income on the written-off advance, whose outstanding stays zero |
| BookIngest.UnmatchedGoesThrough | backend/internal/usecase/recovery/recovery.go:294-305 | an unknown subscriber leaves an UNMATCHED event and no money |
| BookAnswers.IngestReplays | backend/internal/usecase/recovery/recovery.go:100-126 | a redelivered event, after any further run, changes nothing and gets its first answer; another payload under its id is refused for ever |
| BookReversal.ReversalOutcome | backend/internal/usecase/recovery/recovery.go:791-969 | exactly when a reversal of an allocated event applies, replays, collides with the one-active index or the pool headroom, or is refused |
| BookMoney.ClawBackGoesThrough | backend/internal/usecase/recovery/recovery.go:857-948 | a claw-back within the net of the event restores outstanding and utilisation with the split taken in reverse order, unless the index or the headroom collides |
| BookMoney.ClawBackKeepsCore | backend/internal/usecase/recovery/recovery.go:857-948 | and it keeps every money cross-check, also when it re-opens a closed advance |
| BookReferences.EventWithinAdvance | backend/internal/repo/reversals.go:129-175 | one event's net share never passes its advance's, so reversing it cannot push what was recovered below zero |
| BookReversal.ReverseKeepsInv | backend/internal/usecase/recovery/recovery.go:464-606 | the reversal transaction keeps the invariant, applied, parked or refused |
| BookReversal.RetryKeepsInv | backend/internal/usecase/recovery/recovery.go:645-688 | so does an operator retry |
| BookAnswers.ReverseReplays | backend/internal/usecase/recovery/recovery.go:479-510 | an applied reversal answers every repeat the same after any further run and never claws back twice; another amount under its id is refused |
| BookAnswers.FullReversalRestores | backend/internal/usecase/recovery/recovery.go:791-969 | reversing the whole applied part of a recovery just booked cannot collide and restores pool, obligation, both components and both ledger balances, even if the waterfall order changed in between |
| BookAnswers.ClosedRowApplied | backend/internal/usecase/recovery/recovery.go:590-604 | the parked row closed with an applied reversal was itself applied only if it is that reversal |
| BookParking.ClosedUnapplied | backend/internal/usecase/recovery/recovery.go:590-604 | a run from a funded pool in which a reversal parked on headroom is closed by another one, unapplied, and no operator retry can apply it |
| BookParking.NothingElseApplies | backend/internal/usecase/recovery/recovery.go:590-604 | nor can any further run in which the telco does not send it again |
| BookParking.ResendApplies | backend/internal/usecase/recovery/recovery.go:464-606 | sent again at once it is refused; sent again after headroom returned it is applied |
| BookQueue.StepQueue | backend/internal/usecase/recovery/recovery.go:464-758 | a transaction keeps every parked row what it is, lets it stop waiting only once its original is on the book, and puts on record only a reversal it names or a row waits for |
| BookQueue.OnlyResendApplies | backend/internal/usecase/recovery/recovery.go:464-606 | over any run a reversal neither on record nor waited for is applied by nothing but the telco sending it |
| BookQueue.ResendAppliesIff | backend/internal/usecase/recovery/recovery.go:556-606 | sent again while its row is closed it is applied exactly when neither the one-active index nor the headroom is in the way, and else refused |
| BookQueue.SunkForEver | backend/internal/usecase/recovery/recovery.go:728-758 | while a reversal for more waits for it, a recovery is refused every time it comes in over any run in which its subscriber then has a live advance; it never reaches the book and the row never stops waiting |
| BookAnswers.ParkedReversalSinksIngest | backend/internal/usecase/recovery/recovery.go:728-758 | a run in which a parked reversal makes its original's ingest fail |
| BookWriteOff.RequestOutcome | backend/internal/usecase/collections/collections.go:106-142 | a request succeeds exactly for a live, eligible advance with no live write-off, and itemises exactly the outstanding into fee and principal |
| BookWriteOff.ApproveOutcome | backend/internal/usecase/collections/collections.go:154-237 | an approval succeeds exactly for an open request, another actor, a live advance and no blocking dispute; it keeps the invariant |
| BookWriteOff.RejectOutcome | backend/internal/usecase/collections/collections.go:242-254 | a rejection needs another actor than the maker and keeps the invariant |
| BookMoney.WriteOffGoesThrough | backend/internal/usecase/collections/collections.go:188-231 | crystallising never fails and zeroes outstanding, utilisation and the remaining unearned fee |
| BookMoney.WriteOffKeepsCore | backend/internal/usecase/collections/collections.go:188-231 | and it keeps every money cross-check |
| BookStore.Tables.Reserve | backend/internal/repo/credit.go:279-295 | a scan that reserves on the first active pool of the programme with headroom: the pure statement, in place |
| BookStore.Tables.ConfirmUtilisation | backend/internal/repo/credit.go:298-310 | moves a reservation to utilisation, or reports an underflow and changes nothing |
| BookStore.Tables.Release | backend/internal/repo/credit.go:314-325 | returns a reservation, or reports an underflow |
| BookStore.Tables.ReduceUtilisation | backend/internal/repo/credit.go:328-339 | reduces utilisation, or reports an underflow |
| BookStore.Tables.ReAddUtilisation | backend/internal/repo/reversals.go:214-225 | adds utilisation back under the over-allocation CHECK |
| BookStore.Tables.IsSlotTaken | backend/migrations/0004_m1_credit_core.sql:123-125 | finds whether another open advance holds the subscriber's place in the one-active index |
| BookStore.Tables.InsertAdvance | backend/internal/repo/credit.go:391-410 | inserts a pool-less advance unless the one-active index or the outstanding CHECK refuses |
| BookStore.Tables.WriteAdvance | backend/internal/repo/credit.go:443-460 | the guarded UPDATE on id, version and state; zero rows is a stale version |
| BookStore.Tables.Transition | backend/internal/repo/credit.go:443-460 | only transitions of the entity table, under the version guard |
| BookStore.Tables.ReserveTransition | backend/internal/repo/credit.go:415-428 | assigns the pool and moves VALIDATED to EXPOSURE_RESERVED in one statement |
| BookStore.Tables.SetOutstanding | backend/internal/repo/recovery.go:146-162 | the shared UPDATE of ApplyRecovery and ApplyReversal |
| BookStore.Tables.ResolveAttempt | backend/internal/repo/credit.go:478-493 | finalises an attempt only from the expected state |
| BookStore.Tables.FindOpenBySubscriber | backend/internal/repo/recovery.go:134-141 | the oldest live advance of the subscriber, or none |
| BookStore.Tables.FindWrittenOffBySubscriber | backend/internal/repo/reversals.go:179-185 | the most recently written-off advance of the subscriber |
| BookStore.Tables.SetEventState | backend/internal/repo/recovery.go:60-71 | a guarded state move of a recovery event |
| BookStore.Tables.InsertSuspense | backend/internal/repo/recovery.go:120-126 | one positive suspense item per event |
| BookStore.Tables.SumByComponent | backend/internal/repo/recovery.go:88-116 | a loop filling the per-component sums of one advance: equals the net of its rows for every component |
| BookStore.Tables.ListNetByEventComponent | backend/internal/repo/reversals.go:150-175 | the per-component net of one event |
| BookStore.Tables.NetAppliedByEvent | backend/internal/repo/reversals.go:129-146 | the fee and principal net of one event and its advance |
| BookStore.Tables.InsertParked | backend/internal/repo/reversals.go:36-52 | parks a reversal unless either source id is already parked |
| BookStore.Tables.FindParkedForOriginal | backend/internal/repo/reversals.go:65-84 | the waiting row of an original |
| BookStore.Tables.PostLines | backend/internal/ledger/ledger.go:132-213 | appends a journal only for accepted lines and a free key; a taken key is quiet for the same lines and an error for others |
| BookStore.Tables.PostEvent | backend/internal/ledger/templates.go:58-90 | renders the active template and posts it |
| BookService.SymbolsSuffice | backend/internal/ledger/templates.go:66-85 | every seeded template uses only symbols its postings bind, so no posting fails on an unbound symbol |
| BookService.Accept | backend/internal/usecase/origination/origination.go:985-1125 | the confirm transaction statement by statement equals the pure step |
| BookService.PostIssued | backend/internal/usecase/origination/origination.go:1340-1368 | posts the issue journal with all four symbols bound |
| BookService.Resolve | backend/internal/usecase/origination/origination.go:1311-1425 | the outcome transaction, branch by branch, equals the pure step |
| BookService.Reschedule | backend/internal/repo/recovery.go:198-205 | the reschedule UPDATE equals the pure step |
| BookService.Allocate | backend/internal/usecase/recovery/recovery.go:1037-1140 | the waterfall loop inserts exactly the rows of the split and returns the fee it took, or fails when it cannot consume the amount |
| BookService.ApplyToAdvance | backend/internal/usecase/recovery/recovery.go:337-391 | allocation, state, utilisation and journal of a recovery |
| BookService.HoldExcess | backend/internal/usecase/recovery/recovery.go:393-409 | the excess goes to suspense with its own journal |
| BookService.Quarantine | backend/internal/usecase/recovery/recovery.go:1013-1033 | the quarantine path |
| BookService.WriteoffIncome | backend/internal/usecase/recovery/recovery.go:974-1005 | the income path |
| BookService.Recover | backend/internal/usecase/recovery/recovery.go:315-440 | applied and excess split against outstanding, then any parked reversal |
| BookService.ClassifyAndApply | backend/internal/usecase/recovery/recovery.go:253-441 | the choice between duplicate, unmatched, live, written-off and quarantine |
| BookService.Ingest | backend/internal/usecase/recovery/recovery.go:80-145 | dedup, classification and the stored answer |
| BookService.Unallocate | backend/internal/usecase/recovery/recovery.go:857-911 | the reverse-waterfall loop inserts exactly the negative rows of the split and returns the fee it gave back |
| BookService.ClawBack | backend/internal/usecase/recovery/recovery.go:857-948 | negative rows, restored outstanding and utilisation, mirrored journal |
| BookService.ApplyReversal | backend/internal/usecase/recovery/recovery.go:791-969 | the reversal with its idempotency record |
| BookService.ApplyReversalGuarded | backend/internal/usecase/recovery/recovery.go:702-724 | under a savepoint: a collision restores the tables and becomes a park reason |
| BookService.TryParked | backend/internal/usecase/recovery/recovery.go:737-757 | a waiting reversal tried again |
| BookService.ApplyParkedIfAny | backend/internal/usecase/recovery/recovery.go:728-758 | the reversal parked for an original, applied with it |
| BookService.Reverse | backend/internal/usecase/recovery/recovery.go:464-606 | replay, park, apply or refuse |
| BookService.RetryParked | backend/internal/usecase/recovery/recovery.go:645-688 | the operator retry |
| BookService.OutstandingSplit | backend/internal/usecase/collections/collections.go:326-348 | fee and principal still owed, the fee floored at zero |
| BookService.RequestWriteOff | backend/internal/usecase/collections/collections.go:106-142 | the request with its one-live-write-off scan |
| BookService.Decide | backend/internal/repo/writeoffs.go:193-210 | the guarded decision with the distinct-actor CHECK |
| BookService.ApproveWriteOff | backend/internal/usecase/collections/collections.go:154-237 | decision and crystallisation |
| BookService.Execute | backend/internal/repo/tx.go:37-51 | any command executed on the tables in place, with rollback on error, leaves exactly the state of the run machine's step, and so keeps the invariant |
| Pricing.LadderIs | backend/internal/usecase/origination/origination.go:697-750 | a validated product fails only when an added fee overflows a repayment within the limit; otherwise the ladder has exactly the offered denominations in order, each with the nearest fee and repayment = disbursed + fee |
| Pricing.BuildLadder | backend/internal/usecase/origination/origination.go:697-750 | the ladder loop computes that ladder |
| Pricing.FeeIsNearest | backend/internal/usecase/origination/origination.go:711-713 | the fee of a positive denomination never exceeds it and is its rounded share |
| Ledger.Validate | backend/internal/ledger/ledger.go:148-170 | reports the first fault in the source's order, and nothing exactly when the journal is acceptable |
| Ledger.Store.Post | backend/internal/ledger/ledger.go:132-213 | what a post stores, replays and refuses |
| Ledger.AcceptedBalances | backend/internal/ledger/ledger.go:148-170 | an accepted journal's true net is a multiple of 2^64, so it balances exactly when it stays below that |
| Ledger.UnboundedSumsWrap | backend/internal/ledger/ledger.go:148-170 | three debits that pass the balance check |
| Ledger.RunsKeepTheBooks | backend/internal/ledger/ledger.go:132-213 | after any run of bounded posts every stored journal balances, all accounts sum to zero and no business event is stored twice |
| Ledger.BooksClose | backend/internal/ledger/ledger.go:233-266 | balanced journals make the balances of all accounts together zero |
| Ledger.CanonicalIsMultiset | backend/internal/ledger/ledger.go:218-227 | canonical texts agree exactly for the same multiset of lines, on every chart in which no code starts with a whole line and a line break |
| Ledger.LineBreakClash | backend/internal/ledger/ledger.go:218-227 | two different balanced journals with one canonical text when a code hides lines |
| Templates.Render | backend/internal/ledger/templates.go:70-85 | the rendering loop, refusing any unbound symbol |
| Templates.RenderedNet | backend/internal/ledger/templates.go:70-85 | the net of the rendered lines is the symbolic net at the bound values, omitted legs included |
| Templates.SymbolicBalanceIsNumericBalance | backend/internal/usecase/configsvc/validators_m3e.go:46-109 | a template balances on the validator's axes if and only if it balances for every binding |
| Templates.ApprovedTemplatePosts | backend/internal/usecase/configsvc/validators_m3e.go:46-109 | a journal rendered from an approved template is accepted exactly when two legs survive, with no bound on amounts |
| Templates.UpfrontJournalUnchanged | backend/internal/ledger/templates.go:23-56 | with zero deferred symbols the journal is line for line the one without those legs |
| Templates.UpfrontOfSeeded | backend/migrations/0049_m3f_deferred_fee_recognition.sql:44-58 | so the second seeded template set gives the first one's journals under upfront recognition |
| Templates.SeededApproved | backend/migrations/0049_m3f_deferred_fee_recognition.sql:44-58 | every seeded template passes the approval rules |
| Templates.SeededJournal | backend/internal/ledger/templates.go:58-90 | every seeded posting with good figures is accepted and moves the receivable and the unearned fee by its stated amount |
| Fulfilment.AtMostOneCredit | backend/internal/mno/adapter.go:194-366 | over every interleaving of dial, crash, loss, repeated, refused and late copies, and enquiries: at most one credit, ACTIVE means credited, the reservation is settled exactly once, and a failed advance was credited exactly when some event is a crediting first landing and some event gives the advance up, the worker on NOT_FOUND or the saga on a refusal |
| Fulfilment.FailedWasNeverCredited | backend/internal/usecase/fulfilmentresolver/resolver.go:95-140 | if no crediting copy first lands after a NOT_FOUND answer or beside an edge refusal, a failed advance was never credited |
| Fulfilment.LateLandingLosesMoney | backend/internal/usecase/fulfilmentresolver/resolver.go:105-115 | the run that shows the first hypothesis is needed |
| Fulfilment.SecondCopyRefusedLosesMoney | backend/internal/mno/adapter.go:244-290 | the run that shows the second is |
| Fulfilment.OneEnquiryResolves | backend/internal/usecase/origination/origination.go:1311-1425 | one answered enquiry settles any unsettled advance as the telco decided |
| Fulfilment.Telco.Fulfil | simulator/sim/sim.go:311-373 | the telco executes once per idempotency key and replays its record |
| Fulfilment.Telco.Status | simulator/sim/sim.go:375-396 | an enquiry tells the recorded transaction or NOT_FOUND |
| Breaker.Circuit.Allow | backend/internal/mno/breaker.go:72-89 | admits when closed, or once after the cooldown |
| Breaker.Circuit.Record | backend/internal/mno/breaker.go:93-126 | a closed circuit opens exactly when the window is full and the failing share reaches the threshold; a half-open one closes or reopens on the outcome |
| Breaker.Circuit.Slide | backend/internal/mno/breaker.go:107-125 | the ring buffer with its counters refines "the last minRequests outcomes since the last trip or reset" |
| Breaker.SlidingWindow | backend/internal/mno/breaker.go:107-125 | overwriting the oldest outcome keeps the failure count of the window |
| Breaker.ClassifyIsConservative | backend/internal/mno/adapter.go:260-310 | CONFIRMED only on a 200 SUCCESS, FAILED only on the telco's own word, all else UNKNOWN |
| Breaker.SubmitFulfilment | backend/internal/mno/adapter.go:194-310 | dials at most once, tells apart what was never sent, and leaves the breaker (state, cooldown and history) as the admission and, exactly when it dialled, the outcome make it |
| Breaker.ProbeRecoversIff | backend/internal/mno/adapter.go:226-271 | a call recovers an open circuit exactly when the cooldown is over, it is dialled and the telco answers below 500 |
| Breaker.BlockedIff | backend/internal/mno/adapter.go:226-271 | over any run of calls the circuit ends half-open, and never dials again, exactly when some probe was lost before its dial |
| Breaker.LostProbeBlocksForever | backend/internal/mno/adapter.go:226-271 | after a lost probe no later call is ever dialled |
| Breaker.OneProbe | backend/internal/mno/breaker.go:70-104 | with any number of calls in flight, a half-open circuit admits none until an outcome is reported, and the first decides it |
| Breaker.ReportBetweenProbes | backend/internal/mno/breaker.go:70-104 | in any run an admission after a probe follows a report made since |
| Breaker.ProbeDecidesIff | backend/internal/mno/breaker.go:91-104 | the deciding outcome is sure to be the probe's exactly when no earlier call is still in flight |
| Breaker.StaleOutcomeCloses | backend/internal/mno/breaker.go:91-104 | a run in which an earlier call's success closes the circuit under its probe |
| Breaker.CooldownHolds | backend/internal/mno/breaker.go:70-144 | on a clock that does not run back a tripped circuit admits nothing before its cooldown is over |
| Recharge.CounterIsClaims | backend/internal/repo/heldrecharge.go:248-311 | under any interleaving every day counter is the sum of that day's live claims, at most the ceiling, and counts an event once |
| Recharge.ReleaseCoversIff | backend/internal/handler/recharge_webhook.go:367-374 | giving a reservation back keeps booked money covered exactly when no other delivery booked or is booking the event |
| Recharge.SafeRunsStayUnderCeiling | backend/internal/handler/recharge_webhook.go:278-374 | while releases are safe: booked money stays under the ceiling, a held event is booked only after another actor than the maker claimed it, a rejected one never |
| Recharge.OverlapBooksRejected | backend/internal/handler/recharge_webhook.go:303-374 | a run of overlapping deliveries that books a rejected event and passes the ceiling |
| Recharge.Tables.Reserve | backend/internal/repo/heldrecharge.go:248-292 | the claim and counter statements in place |
| Recharge.Tables.FirstTransaction | backend/internal/handler/recharge_webhook.go:278-328 | disposition, per-event limit, reservation or hold, in one transaction |
| Recharge.Tables.Release | backend/internal/repo/heldrecharge.go:300-311 | gives the amount and the claim back |
| Recharge.Tables.Ask | backend/internal/repo/heldrecharge.go:141-149 | the maker asks once |
| Recharge.Tables.ClaimHold | backend/internal/repo/heldrecharge.go:158-168 | only another actor claims a requested release |
| Recharge.Tables.Finalise | backend/internal/repo/heldrecharge.go:174-183 | only the claimant finalises |
| Recharge.Tables.Reject | backend/internal/repo/heldrecharge.go:188-196 | only a held row is rejected |
| TokenBucket.Store.Take | backend/internal/repo/ratelimit_buckets.go:69-146 | the upsert in place, with its CHECK failure |
| TokenBucket.SharedQuotaHolds | backend/internal/repo/ratelimit_buckets.go:69-125 | for the statement as written, on a clock that runs forward: 1000 milli-tokens per call let through, free grants aside, stay below burst + refill x window + 1; free grants number no more than the milli-tokens of that time, and none where statements are steady |
| TokenBucket.NeverAboveQuota | backend/internal/repo/ratelimit_buckets.go:69-125 | 1000 milli-tokens per spend stay below the balance + fastest rate x window + 1, through changes of quota, clamps, failed CHECKs and clocks that step back between statements |
| TokenBucket.RefillPays | backend/internal/repo/ratelimit_buckets.go:86-115 | balance plus spent tokens never outgrow the time the refill clock claimed, for any run of statements as written |
| TokenBucket.GrantedWhenDue | backend/internal/repo/ratelimit_buckets.go:75-124 | in seconds, for steady statements as written: a call at least the time of one token after an earlier one, with only refusals between, is granted |
| TokenBucket.NewestQuotaGoverns | backend/internal/repo/ratelimit_buckets.go:75-82 | over any run of any replicas' quotas the row carries the newest that landed, the first to present it, and its tokens stay within that burst |
| TokenBucket.OneReadingIsExact | backend/internal/repo/ratelimit_buckets.go:75-124 | with one reading per statement the CHECKs hold and a grant is a spend |
| TokenBucket.GrantIsSpendIff | backend/internal/repo/ratelimit_buckets.go:86-125 | a grant is a spend and no CHECK fails at every reading of the clock exactly when a whole token is on the row beforehand |
| TokenBucket.FailsIff | backend/internal/repo/ratelimit_buckets.go:86-125 | with readings in order a statement fails its CHECK exactly when the token it would spend arrives after the balance was read |
| TokenBucket.SteadyRun | backend/internal/repo/ratelimit_buckets.go:86-125 | statements in which nothing is earned between first and last reading run as with one reading each, and every grant is a spend |
| TokenBucket.FreeGrantsAreTicks | backend/internal/repo/ratelimit_buckets.go:86-125 | on a clock that runs forward every free grant straddles its own milli-token of time |
| TokenBucket.StraddlingNeverPays | backend/internal/repo/ratelimit_buckets.go:86-125 | runs of any length on a forward clock that grant every call and spend nothing, or refuse every call for ever |
| TokenBucket.SpendsUnbounded | backend/internal/repo/ratelimit_buckets.go:86-125 | with a clock that steps back inside a statement, any number of spends within a second |
| TokenBucket.FreeGrantsUnbounded | backend/internal/repo/ratelimit_buckets.go:86-125 | with clocks that step back, any number of free grants at one moment |
| Monetary.AddIsExact | backend/internal/entity/money.go:116-126 | the overflow test catches exactly the overflows |
| Monetary.SubIsExact | backend/internal/entity/money.go:129-138 | subtraction is exact or refused, with the case of the least int64 stated |
| Monetary.MulIntIsExact | backend/internal/entity/money.go:152-168 | the division test catches exactly the overflows |
| Monetary.PercentBpsIsNearest | backend/internal/entity/money.go:192-212 | the one nearest integer, ties away from zero, or an overflow |
| Monetary.AllocateByRatio | backend/internal/entity/money.go:219-270 | the in-place loops end and give the largest-remainder split, for every int64 amount and positive ratios |
| Monetary.WithinOneUnit | backend/internal/entity/money.go:219-270 | every part is strictly within one unit of its exact share, and an exact share is paid exactly |
| Monetary.LargerRatioLargerPart | backend/internal/entity/money.go:219-270 | a larger ratio never gets a smaller part |
| Monetary.AllocationIsUnique | backend/internal/entity/money.go:219-270 | no other split has these properties |
| Monetary.QuotientFits | backend/internal/entity/money.go:241-247 | every quotient fits an int64 except for the least int64 and a single ratio |
| Monetary.RatioBpsIsFloor | backend/internal/handler/money_format.go:99-116 | the exact floor of part x 10000 / whole, saturating only beyond int64 |
| MoneyFormat.FormatMoney | backend/internal/handler/money_format.go:47-75 | the builder loops produce the display |
| MoneyFormat.GroupMinorText | backend/internal/handler/portal_risk.go:51-68 | left-to-right comma insertion |
| MoneyFormat.WrittenIsGrouped | backend/internal/handler/portal_risk.go:56-63 | the left-to-right pass groups in threes from the right |
| MoneyFormat.DisplayReadsBack | backend/internal/handler/money_format.go:47-75 | under every symbol a displayed amount reads back as itself; the least int64 alone is displayed as no amount |
| Scoring.Run | backend/internal/scoring/engine.go:124-297 | the engine's branches and loops compute the score, with every int64 intermediate in range |
| Scoring.Winsorise | backend/internal/scoring/engine.go:217-244 | the capped total, all sums in int64 |
| Scoring.WeekOrderIrrelevant | backend/internal/scoring/engine.go:124-297 | permuting safe weeks changes nothing in the decision |
| Scoring.RankBelowMax | backend/internal/scoring/engine.go:356-368 | the winsor rank is at most 12 of 13 exactly for 9230 basis points or less |
| Scoring.OneBigWeek | backend/internal/scoring/engine.go:217-244 | raising a maximal week leaves cap, median and total unchanged below that bound, and adds the whole raise above it |
| Scoring.BigWeekBuysNothing | backend/internal/scoring/engine.go:217-297 | under FLAG_ONLY a larger maximal week changes neither tier, face value nor eligibility |
| Scoring.SpikeLiftsIff | backend/internal/scoring/engine.go:249-259 | CAP_TO_STARTER grants more than the flag alone exactly when the totals earn a rung and it lies below the starter's; never when the starter is the lowest rung |
| Scoring.SpikePays | backend/internal/scoring/engine.go:249-259 | a policy and thirteen weeks where the penalty raises the face value from 100 to 500 |
| Scoring.ClimbIsBounded | backend/internal/scoring/engine.go:263-297 | past the gates nobody climbs more than the policy's step above the prior tier; where no threshold is cleared the decision is the starter's |
| Outlook.RepaymentOutlookFrom | backend/internal/repo/repaymentoutlook.go:76-166 | the outlook of every input, computed by loops over rows and a map |
| Outlook.Bucket | backend/internal/repo/repaymentoutlook.go:98-124 | week sums, total and earliest row of the window in one pass |
| Outlook.PositiveValues | backend/internal/repo/repaymentoutlook.go:127-134 | the positive weeks in any map order |
| Outlook.OrderDoesNotMatter | backend/internal/repo/repaymentoutlook.go:72-76 | the outlook is the same for any order of the rows, even where sums wrap |
| Outlook.ProjectionIsHonestIff | backend/internal/repo/repaymentoutlook.go:146-166 | for any debt and rows: each end is at least one week, and covers the debt at its percentile pace, exactly when debt + pace - 1 fits int64; 1 <= optimistic <= pessimistic with each the least time that clears the whole debt at its pace and the cadence, exactly when the faster division and the slower cadence fit |
| Outlook.EndOfRangeIff | backend/internal/repo/repaymentoutlook.go:146-182 | the same equivalences for one end, at any pace, span and number of paying weeks |
| Outlook.RangeInOrderIff | backend/internal/repo/repaymentoutlook.go:146-182 | for any debt and rows: 1 <= optimistic <= pessimistic exactly when the faster division fits and the slower end fits its cadence, or neither does, or the faster end stays within the slower paying weeks |
| Outlook.RangeUpsideDown | backend/internal/repo/repaymentoutlook.go:146-182 | a debt and three repayments projected with the optimistic end behind the pessimistic one |
| Outlook.StatusIs | backend/internal/repo/repaymentoutlook.go:88-143 | exactly which disposition is given, for any rows: the int64 net decides a stall, and the number of weeks with a positive sum, which the outlook reports, a projection |
| Outlook.PercentileIsNearestRank | backend/internal/repo/repaymentoutlook.go:221-241 | at least p% of the values are at most the percentile and fewer than p% are below it |
| Outlook.CeilDivIsLeast | backend/internal/repo/repaymentoutlook.go:245-250 | the least count that covers the amount |
| Outlook.CalendarIsLeastIff | backend/internal/repo/repaymentoutlook.go:173-182 | calendar weeks are never fewer than repayment weeks, and are the least that cover the cadence exactly when the cadence arithmetic fits int64 or the cadence is weekly or faster |
| Outlook.ClawedBackReadsStalled | backend/internal/repo/repaymentoutlook.go:120-124 | a repaid and clawed-back window reads as a stall |
| Outlook.HugeDebtGoesNegative | backend/internal/repo/repaymentoutlook.go:146-166 | an outlook of the largest debt and three small repayments that is PROJECTED with negative weeks at both ends |
| Outlook.SlowCadenceIsCut | backend/internal/repo/repaymentoutlook.go:173-182 | a debt whose cadence wraps is told fewer weeks than a smaller one |
| Outbox.Table.ClaimBatch | backend/internal/repo/outbox.go:38-71 | the claim query as nested loops: the first unlocked claimable rows, up to the limit |
| Outbox.Table.RunOnce | backend/internal/usecase/outboxdispatch/dispatch.go:59-109 | one dispatch cycle publishes, fails or dead-letters exactly its batch and counts what it published |
| Outbox.Table.Append | backend/internal/repo/outbox.go:20-26 | a new row at the end |
| Outbox.Table.MarkPublished | backend/internal/repo/outbox.go:73-77 | publishes and counts the try |
| Outbox.Table.MarkFailed | backend/internal/repo/outbox.go:79-83 | counts the try |
| Outbox.Table.MarkDeadLettered | backend/internal/repo/outbox.go:88-93 | marks only an unpublished row |
| Outbox.Table.Requeue | backend/internal/repo/outbox.go:97-108 | clears only a dead row |
| Outbox.RunsPublishInOrder | backend/internal/repo/outbox.go:28-71 | over every run of any number of workers, each aggregate is published in order and at most one of its events is in flight |
| Outbox.BlockedByHead | backend/internal/repo/outbox.go:28-37 | an aggregate offers nothing exactly when it is all published or its oldest waiting row is dead or unconsumed |
| Outbox.BlockedTakesNoSlot | backend/internal/repo/outbox.go:28-37 | a blocked aggregate changes nothing in any batch, whatever it holds |
| Outbox.StuckHeadBlocks | backend/internal/repo/outbox.go:85-93 | a dead head not replayed, or an unconsumed one, holds its successors through any run |
| Outbox.AttemptsAreBounded | backend/internal/usecase/outboxdispatch/dispatch.go:76-104 | no row is tried more than the budget between replays, and a dead row is never published |
| Outbox.CyclesDrain | backend/internal/usecase/outboxdispatch/dispatch.go:112-126 | with working handlers as many cycles as rows wait publish everything |
| ConfigHistory.Table.Activate | backend/internal/repo/config.go:74-96 | supersedes the active versions and activates the approved one, or changes nothing |
| ConfigHistory.Table.TransitionState | backend/internal/repo/config.go:54-69 | the guarded lifecycle move with the maker-checker CHECK |
| ConfigHistory.Table.GetActiveAt | backend/internal/repo/config.go:103-115 | a covering version with the latest start |
| ConfigHistory.Table.Insert | backend/internal/repo/config.go:18-27 | a new draft |
| ConfigHistory.LookupIsLastActivation | backend/internal/repo/config.go:74-115 | with activations in order the lookup at any time finds the version last activated by then |
| ConfigHistory.WindowsPartitionTime | backend/internal/repo/config.go:74-115 | windows are disjoint and contiguous from the first activation on |
| ConfigHistory.HistoryIsStable | backend/internal/repo/config.go:98-115 | no later activation changes what governed a past time |
| ConfigHistory.PastIsSettled | backend/internal/repo/config.go:74-115 | an activation, however dated, never changes the answer for a time before it |
| ConfigHistory.BackdatingOverlaps | backend/internal/repo/config.go:71-96 | at most one window covers any time after an activation exactly when it is not dated before the current start (or no earlier window has any length) |
| ConfigHistory.BackdatedRun | backend/internal/repo/config.go:71-96 | a run whose third activation is backdated: two windows cover time 7 and its answer changes |
| Paging.ParseUndoesEncode | backend/internal/repo/portalcollections.go:58-79 | parse undoes encode for every storable row, also when the id holds the delimiter, and for no other |
| Paging.ListDelinquent | backend/internal/repo/portalcollections.go:131-185 | one page, from the top for a malformed cursor |
| Paging.Fetch | backend/internal/repo/portalcollections.go:123-126 | the rows below the cursor in severity order up to the page size |
| Paging.NextPage | backend/internal/repo/portalcollections.go:189-197 | the cursor after a full page leaves exactly what the page left |
| Paging.CursorsCoverTheQueue | backend/internal/repo/portalcollections.go:123-126 | following the cursors ends and the pages joined are the whole severity-sorted queue, each row once |
| Like.SearchMatchesSuffix | backend/internal/repo/portalsubscriber.go:76-84 | LIKE (section 8.5 of ISO/IEC 9075-2) with the escaped pattern matches exactly the tokens that end with the query |
| Like.EscapeReadsBack | backend/internal/repo/portalsubscriber.go:27-31 | an escaped text reads back as its own characters, all literal |
| Like.UnescapedWouldOvermatch | backend/internal/repo/portalsubscriber.go:27-31 | without the escape a wildcard would match everything |
| ScoringCycles.Table.ClaimOrReclaim | backend/internal/repo/scoringcycles.go:32-64 | claims the current bucket, or takes it over after failure or expiry, keeping its file |
| ScoringCycles.Table.Mark | backend/internal/repo/scoringcycles.go:75-100 | closes by key alone |
| ScoringCycles.Table.BindFeatureFile | backend/internal/repo/scoringcycles.go:68-72 | binds a file by key alone |
| ScoringCycles.LeasesExclude | backend/internal/repo/scoringcycles.go:22-64 | while every worker binds and closes in time no two running leases share a cycle |
| ScoringCycles.StepKeepsClosedIff | backend/internal/repo/scoringcycles.go:66-100 | a step changes a closed cycle (status, claim, attempts, file, run, count) exactly when it is a late mark that disagrees or a late bind of another file, and reopens one exactly when it is a late failure |
| ScoringCycles.StepKeepsFilesIff | backend/internal/repo/scoringcycles.go:27-30 | a step changes a bound file exactly when it is a late bind of another one: a takeover keeps it |
| ScoringCycles.ClosedStaysClosedIff | backend/internal/repo/scoringcycles.go:5-9 | over any run every cycle stays as it was closed for the rest of the run exactly when no step is such a late mark or bind |
| ScoringCycles.FilesStayIff | backend/internal/usecase/scoringsched/scoringsched.go:180-200 | over any run every cycle keeps the file first bound to it exactly when no step is a late bind of another one |
| ScoringCycles.ClosedStaysClosed | backend/internal/repo/scoringcycles.go:5-9 | so both do while nobody binds or marks a cycle that another claim has since taken over, however late the writes |
| ScoringCycles.InTimeWritesOwn | backend/internal/repo/scoringcycles.go:22-64 | workers that bind and close in time never write to a cycle that was taken over |
| ScoringCycles.OverstayReopens | backend/internal/repo/scoringcycles.go:94-100 | a worker past its lease reopens a succeeded cycle and a third scores it again |
| ScoringCycles.LateBindRenames | backend/internal/usecase/scoringsched/scoringsched.go:180-200 | a worker whose ingest outlives its lease binds its file to a cycle another one scored and closed |
| ScoringCycles.CeilingHolds | backend/internal/usecase/scoringsched/scoringsched.go:170-177 | whoever overstays, a cycle is scored at most max_attempts times, although a parked one stays claimable |

## Left out

- HTTP routing, sessions, roles, signatures, tokens, row-level security and connection pools: plumbing, or calls into code outside the model.
- Confirm's gates before the advance insert (consent, disclosure, identity, exclusion, holds after a webhook close, guardrails) and its stored response (INV-020): single guards that only refuse.
- Recovery holds, audit rows, outbox appends and notifications inside the book's transactions: they carry no money state.
- ClassifyDelinquency and the bucket ladder: eligibility for a write-off is a parameter.
- Int64 overflow inside the book: an overflowing amount aborts its transaction in the source; the book uses unbounded integers.
- Several currencies in one book: the book has one, as its cross-checks INV-016 and INV-019 assume; the ledger module has any number.
- Journals stored without a lines hash (before the column existed).
- Reading the clock: float64 hours, microsecond rounding of intervals and saturation of durations are replaced by exact arithmetic.
- The database's text collation: ids compare bytewise in the paging module.
- The recharge context of the outlook (count, median amount, median gap): shown beside the projection, not used by it.
- Config activation through migrations, and the fallback from a scope to the global one.
- Outlook.ProjectionIsHonestIff: speaks of the weekly sums as the source stores them, wrapped to int64; when rows make a sum itself wrap is not characterised.
- Fulfilment.FailedWasNeverCredited: needs that no crediting copy lands first after a NOT_FOUND answer or beside a refused copy; AtMostOneCredit states exactly which failed advances were credited without it.
- Fulfilment.AtMostOneCredit: takes a NOT_FOUND enquiry as true when it is given.
- Recharge.SafeRunsStayUnderCeiling: needs that no reservation is given back under an overlapping booking; ReleaseCoversIff states when one release is safe.
- TokenBucket.SharedQuotaHolds: bounds the calls let through by the quota only beside the free grants, which the statement as written makes unbounded by it (StraddlingNeverPays).
- TokenBucket.NeverAboveQuota: needs each statement's own readings in order; SpendsUnbounded shows why.
- TokenBucket.GrantedWhenDue: needs statements in which nothing is earned between the readings; StraddlingNeverPays shows that others can starve.
- ScoringCycles.ClosedStaysClosed: needs that nobody writes to a cycle taken over since; ClosedStaysClosedIff and FilesStayIff state exactly when a run does without it. A cycle's finish time and error text are not modelled: every late mark restamps them.
- Outbox.RunsPublishInOrder: takes a row's position as its visibility order; a sequence number that becomes visible late is not modelled.
- Ledger.RunsKeepTheBooks: needs each journal to net below 2^64; postings rendered from approved templates need no bound (Templates.ApprovedTemplatePosts).
- BookService.Resolve: requires a pending advance to owe its repayment, which every reachable state gives (ReadyToPost); a row that breaks it would render an unbalanced journal, which the ledger refuses.
- BookService.PostIssued: requires the same of the row it posts for.
- ConfigHistory.LookupIsLastActivation: needs activations dated in order; BackdatingOverlaps states exactly when one out of order does harm.
- ConfigHistory.HistoryIsStable: needs the same; PastIsSettled holds without it for each activation.
- MoneyFormat.DisplayReadsBack: covers the 0 to 4 decimals the table admits.
- Ledger.CanonicalIsMultiset: needs a chart in which no code hides a line; a chart with such a code clashes only if what follows the hidden line reads as lines too, which is unique decoding itself and has no simpler form.
- Recharge: a delivery that fails has booked nothing; a commit whose acknowledgement is lost is not modelled.
- ConfigHistory: runs insert, submit, approve and activate; reject, schedule and rollback are left to TransitionState alone, and a rolled-back version leaves the lookup.
- Breaker: the mutex makes each admission and each report one step; a process restart, which closes the circuit, is not modelled.
- Scoring.WeekOrderIrrelevant: covers weeks within the engine's safe range; an unsafe week is refused by its position.
- BookService.Execute: statements of one transaction see no other transaction's writes; lock waits and deadlocks are not modelled.
