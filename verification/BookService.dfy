/** The services over the tables: each transaction, statement by statement, does what the pure step says. */
module BookService {
  import opened BookInvariant
  import opened BookReferences
  import opened BookRuns
  import opened BookSteps
  import opened BookStore
  import opened BookTables
  import opened Common
  import opened Ledger
  import opened Templates

  // ------------------------------------------------------------------ bindings

  /** The symbols a posting of each event type binds. */
  function Symbols(e: EventType): set<Symbol> {
    match e
    case AdvanceIssued => {Outstanding, Disbursed, Fee, FeeDeferAdj}
    case RecoveryApplied => {Amount, FeeRecognized}
    case RecoveryReversed => {Amount, FeeRecognized}
    case WriteOffPosted => {Amount, FeeUnearnedReversed}
    case _ => {Amount}
  }

  /** Every template uses only symbols its postings bind, so no posting fails on an unbound symbol. */
  lemma SymbolsSuffice(e: EventType)
    ensures forall l | l in Seeded(e) :: l.symbol in Symbols(e)
  {
    forall l | l in Seeded(e) ensures l.symbol in Symbols(e) {
      assert l in SeededV1(e) || l in DeferralLegs(e);
    }
  }

  // ------------------------------------------------------------------ origination

  method Accept(db: Tables, subscriber: Id, programme: Id, offer: PricedOffer, deferred: bool)
    returns (r: Result<(), BookError>)
    requires db.Valid()
    modifies db
    ensures db.Valid()
    ensures db.Follows(BookSteps.Accept(old(db.Contents()), subscriber, programme, offer, deferred), r)
  {
    hide BookTables.InsertAdvance, BookTables.Transition, BookTables.Reserve, BookTables.ReserveTransition,
      BookTables.InsertAttempt;
    var a :- db.InsertAdvance(Advance(subscriber, programme, offer, deferred, None, Requested, 1, offer.repayment, None));
    var _ :- db.Transition(a, 1, Requested, Validated);
    var p :- db.Reserve(programme, offer.repayment);
    var _ :- db.ReserveTransition(a, 2, p);
    db.InsertAttempt(a);
    r := db.Transition(a, 3, ExposureReserved, PendingFulfilment);
  }

  method PostIssued(db: Tables, a: Id, adv: Advance) returns (r: Result<(), BookError>)
    requires db.Valid() && adv.outstanding == adv.offer.repayment
    modifies db`journals
    ensures db.Valid() && db.Follows(BookSteps.PostIssued(old(db.Contents()), a, adv), r)
  {
    hide BookTables.PostEvent;
    SymbolsSuffice(AdvanceIssued);
    hide Seeded;
    var feeDeferAdj := if adv.deferred then adv.offer.fee else 0;
    r := db.PostEvent(IssuedKey(a), AdvanceIssued,
                      map[Outstanding := Naira(adv.outstanding), Disbursed := Naira(adv.offer.disbursed),
                          Fee := Naira(adv.offer.fee), FeeDeferAdj := Naira(feeDeferAdj)],
                      Values(adv.offer.disbursed, adv.offer.fee, 0, feeDeferAdj, 0, 0));
  }

  method Resolve(db: Tables, a: Id, outcome: Outcome) returns (r: Result<(), BookError>)
    requires db.Valid()
    requires a < |db.advances| && IsPending(db.advances[a].state) ==> db.advances[a].outstanding == db.advances[a].offer.repayment
    modifies db
    ensures db.Valid()
    ensures db.Follows(BookSteps.Resolve(old(db.Contents()), a, outcome), r)
  {
    hide BookTables.ResolveAttempt, BookTables.Transition, BookTables.ConfirmUtilisation, BookTables.Release,
      BookSteps.PostIssued, CurrentAttemptState;
    if a >= |db.advances| {
      return Err(NotFound);
    }
    var adv := db.advances[a];
    if !IsPending(adv.state) {
      return Ok(());
    }
    match outcome
    case OutcomeConfirmed =>
      db.ResolveAttempt(a, CurrentAttemptState(adv.state), Confirmed);
      var _ :- db.Transition(a, adv.version, adv.state, Active);
      var _ :- db.ConfirmUtilisation(adv.pool, adv.outstanding);
      r := PostIssued(db, a, adv);
    case OutcomeUnknown =>
      db.ResolveAttempt(a, CurrentAttemptState(adv.state), AttemptUnknown);
      r := Ok(());
      if adv.state.PendingFulfilment? {
        r := db.Transition(a, adv.version, adv.state, FulfilmentUnknown);
      }
    case _ =>
      db.ResolveAttempt(a, CurrentAttemptState(adv.state), AttemptFailed);
      var _ :- db.Transition(a, adv.version, adv.state, FulfilmentFailed);
      r := db.Release(adv.pool, adv.outstanding);
  }

  method Reschedule(db: Tables, a: Id) returns (r: Result<(), BookError>)
    modifies db`advances
    ensures db.Follows(BookSteps.Reschedule(old(db.Contents()), a), r)
  {
    if a < |db.advances| {
      db.ResolveAttempt(a, Sent, AttemptUnknown);
    }
    return Ok(());
  }

  // ------------------------------------------------------------------ recovery

  /** The waterfall: each component in order takes what it can of what remains. */
  method Allocate(db: Tables, e: Id, a: Id, applied: int, feeFirst: bool) returns (r: Result<int, BookError>)
    requires a < |db.advances|
    modifies db`allocs
    ensures var s := WaterfallSplit(old(db.Contents()), a, applied, feeFirst);
            if s.fee + s.principal < applied then r == Err(WaterfallShort)
            else r == Ok(s.fee) && db.allocs == old(db.allocs) + Rows(e, a, s, feeFirst)
  {
    var adv := db.advances[a];
    var recovered := db.SumByComponent(a);
    var feeRec, prinRec := SumOf(recovered, FeePart), SumOf(recovered, PrincipalPart);
    var grossRepayment := adv.outstanding + (feeRec + prinRec);
    var remaining, feeTake := applied, 0;
    var waterfall := Waterfall(feeFirst);
    ghost var start := db.allocs;
    ghost var s := WaterfallSplit(db.Contents(), a, applied, feeFirst);
    ghost var first := if feeFirst then s.fee else s.principal;
    var i := 0;
    while i < |waterfall| && remaining > 0
      invariant 0 <= i <= 2
      invariant i == 0 ==> remaining == applied && feeTake == 0 && db.allocs == start
      invariant i == 1 ==> remaining == applied - first && feeTake == (if feeFirst then s.fee else 0)
      invariant i == 1 ==> db.allocs == start + Row(e, a, waterfall[0], first)
      invariant i == 2 ==> remaining == applied - s.fee - s.principal && feeTake == s.fee
      invariant i == 2 ==> db.allocs == start + Rows(e, a, s, feeFirst)
    {
      var comp := waterfall[i];
      var compTotal := if comp == FeePart then adv.offer.fee else grossRepayment - adv.offer.fee;
      var compRemaining := compTotal - SumOf(recovered, comp);
      i := i + 1;
      if compRemaining > 0 {
        var take := if remaining > compRemaining then compRemaining else remaining;
        db.InsertAlloc(Alloc(e, a, comp, take));
        if comp == FeePart {
          feeTake := take;
        }
        remaining := remaining - take;
      }
    }
    if remaining > 0 {
      return Err(WaterfallShort);
    }
    return Ok(feeTake);
  }

  method ApplyToAdvance(db: Tables, e: Id, a: Id, applied: int, feeFirst: bool) returns (r: Result<(), BookError>)
    requires db.Valid() && a < |db.advances|
    modifies db
    ensures db.Valid()
    ensures db.Follows(BookSteps.ApplyToAdvance(old(db.Contents()), e, a, applied, feeFirst), r)
    ensures |db.advances| == |old(db.advances)|
  {
    hide BookTables.SetOutstanding, BookTables.ReduceUtilisation, BookTables.PostEvent, WaterfallSplit, Rows, Seeded;
    var adv := db.advances[a];
    var feeTake :- Allocate(db, e, a, applied, feeFirst);
    var left := adv.outstanding - applied;
    var _ :- db.SetOutstanding(a, adv.version, adv.state, if left == 0 then Closed else PartiallyRecovered, left);
    var _ :- db.ReduceUtilisation(adv.pool, applied);
    var feeRecog := if adv.deferred then feeTake else 0;
    SymbolsSuffice(EventType.RecoveryApplied);
    r := db.PostEvent(AppliedKey(e), EventType.RecoveryApplied,
                      map[Amount := Naira(applied), FeeRecognized := Naira(feeRecog)], Amounts(applied, feeRecog));
  }

  method HoldExcess(db: Tables, e: Id, excess: int) returns (r: Result<(), BookError>)
    requires db.Valid()
    modifies db`suspense, db`journals
    ensures db.Valid() && db.Follows(BookSteps.HoldExcess(old(db.Contents()), e, excess), r)
  {
    hide BookTables.InsertSuspense, BookTables.PostEvent, Seeded;
    if excess <= 0 {
      return Ok(());
    }
    var _ :- db.InsertSuspense(e, excess);
    SymbolsSuffice(EventType.RecoverySuspended);
    r := db.PostEvent(SuspenseKey(e), EventType.RecoverySuspended, map[Amount := Naira(excess)], Amounts(excess, 0));
  }

  method Quarantine(db: Tables, e: Id, amount: int) returns (r: Result<IngestResult, BookError>)
    requires db.Valid()
    modifies db
    ensures db.Valid()
    ensures Answers(db, BookSteps.Quarantine(old(db.Contents()), e, amount), r)
  {
    hide BookTables.InsertSuspense, BookTables.PostEvent, BookTables.SetEventState, Seeded;
    var _ :- db.InsertSuspense(e, amount);
    SymbolsSuffice(EventType.RecoveryQuarantined);
    var _ :- db.PostEvent(QuarantineKey(e), EventType.RecoveryQuarantined, map[Amount := Naira(amount)], Amounts(amount, 0));
    var _ :- db.SetEventState(e, Pending, Quarantined);
    return Ok(IngestResult(Quarantined, 0, amount, false));
  }

  method WriteoffIncome(db: Tables, e: Id, a: Id, amount: int) returns (r: Result<IngestResult, BookError>)
    requires db.Valid()
    modifies db
    ensures db.Valid()
    ensures Answers(db, BookSteps.WriteoffIncome(old(db.Contents()), e, a, amount), r)
  {
    hide BookTables.PostEvent, BookTables.SetEventState, Seeded;
    db.InsertAlloc(Alloc(e, a, WriteoffIncomePart, amount));
    SymbolsSuffice(EventType.WriteoffRecovery);
    var _ :- db.PostEvent(IncomeKey(e), EventType.WriteoffRecovery, map[Amount := Naira(amount)], Amounts(amount, 0));
    var _ :- db.SetEventState(e, Pending, Allocated);
    return Ok(IngestResult(Allocated, amount, 0, false));
  }

  /** The tables hold what the step returns and the answer is the step's, or its error is raised. */
  ghost predicate Answers<T>(db: Tables, step: Result<(Book, T), BookError>, r: Result<T, BookError>)
    reads db
  {
    match step
    case Ok((b, x)) => r == Ok(x) && db.Contents() == b
    case Err(e) => r == Err(e)
  }

  method Recover(db: Tables, cmd: IngestCmd, a: Id) returns (r: Result<IngestResult, BookError>)
    requires db.Valid() && a < |db.advances|
    modifies db
    ensures db.Valid()
    ensures Answers(db, BookSteps.Recover(old(db.Contents()), cmd, a), r)
  {
    hide BookSteps.ApplyToAdvance, BookSteps.HoldExcess, BookTables.SetEventState, BookSteps.ApplyParkedIfAny;
    var amount, outstanding := cmd.payload.amount, db.advances[a].outstanding;
    var applied, excess := amount, 0;
    if amount > outstanding {
      applied, excess := outstanding, amount - outstanding;
    }
    var _ :- ApplyToAdvance(db, cmd.source, a, applied, cmd.feeFirst);
    var _ :- HoldExcess(db, cmd.source, excess);
    var _ :- db.SetEventState(cmd.source, Pending, Allocated);
    var _ :- ApplyParkedIfAny(db, cmd.source, cmd.feeFirst);
    return Ok(IngestResult(Allocated, applied, excess, applied == outstanding));
  }

  method ClassifyAndApply(db: Tables, cmd: IngestCmd) returns (r: Result<IngestResult, BookError>)
    requires db.Valid()
    modifies db
    ensures db.Valid()
    ensures Answers(db, BookSteps.ClassifyAndApply(old(db.Contents()), cmd), r)
  {
    hide BookSteps.Recover, BookSteps.WriteoffIncome, BookSteps.Quarantine, BookTables.SetEventState, FindLive,
      FindWrittenOff;
    var e, amount := cmd.source, cmd.payload.amount;
    if e in db.events {
      return Ok(IngestResult(db.events[e].state, 0, 0, false));
    }
    db.events := db.events[e := Event(cmd.subscriber, amount, Pending)];
    if cmd.subscriber.None? {
      var _ :- db.SetEventState(e, Pending, Unmatched);
      return Ok(IngestResult(Unmatched, 0, 0, false));
    }
    var a := db.FindOpenBySubscriber(cmd.subscriber.value);
    if a.Some? {
      r := Recover(db, cmd, a.value);
      return;
    }
    var w := db.FindWrittenOffBySubscriber(cmd.subscriber.value);
    if w.Some? {
      r := WriteoffIncome(db, e, w.value, amount);
      return;
    }
    r := Quarantine(db, e, amount);
  }

  method Ingest(db: Tables, cmd: IngestCmd) returns (r: Result<IngestResult, BookError>)
    requires db.Valid()
    modifies db
    ensures db.Valid()
    ensures Answers(db, BookSteps.Ingest(old(db.Contents()), cmd), r)
  {
    hide BookSteps.ClassifyAndApply;
    if cmd.payload.amount <= 0 {
      return Err(BadAmount);
    }
    if cmd.source in db.ingested {
      if db.ingested[cmd.source].payload != cmd.payload {
        return Err(DivergentRecovery);
      }
      return Ok(db.ingested[cmd.source].result);
    }
    var res :- ClassifyAndApply(db, cmd);
    db.ingested := db.ingested[cmd.source := Ingested(cmd.payload, res)];
    return Ok(res);
  }

  // ------------------------------------------------------------------ reversal

  /** Un-allocates in reverse waterfall order, by negative rows. */
  method Unallocate(db: Tables, e: Id, a: Id, amount: int, feeFirst: bool) returns (r: Result<int, BookError>)
    modifies db`allocs
    ensures var s := BackSplit(old(db.Contents()), e, amount, feeFirst);
            if s.fee + s.principal < amount then r == Err(WaterfallShort)
            else r == Ok(s.fee) && db.allocs == old(db.allocs) + Rows(e, a, Split(-s.fee, -s.principal), !feeFirst)
  {
    var perComp := db.ListNetByEventComponent(e);
    var remaining, feeReversed := amount, 0;
    var waterfall := Waterfall(feeFirst);
    ghost var start := db.allocs;
    ghost var s := BackSplit(db.Contents(), e, amount, feeFirst);
    ghost var last := if feeFirst then s.principal else s.fee;
    var i := 2;
    while i > 0 && remaining > 0
      invariant 0 <= i <= 2
      invariant i == 2 ==> remaining == amount && feeReversed == 0 && db.allocs == start
      invariant i == 1 ==> remaining == amount - last && feeReversed == (if feeFirst then 0 else s.fee)
      invariant i == 1 ==> db.allocs == start + Row(e, a, waterfall[1], -last)
      invariant i == 0 ==> remaining == amount - s.fee - s.principal && feeReversed == s.fee
      invariant i == 0 ==> db.allocs == start + Rows(e, a, Split(-s.fee, -s.principal), !feeFirst)
    {
      i := i - 1;
      var comp := waterfall[i];
      var have := SumOf(perComp, comp);
      if have > 0 {
        var take := if remaining > have then have else remaining;
        db.InsertAlloc(Alloc(e, a, comp, -take));
        if comp == FeePart {
          feeReversed := take;
        }
        remaining := remaining - take;
      }
    }
    if remaining > 0 {
      return Err(WaterfallShort);
    }
    return Ok(feeReversed);
  }

  method ClawBack(db: Tables, e: Id, a: Id, amount: int, reversal: Id, feeFirst: bool) returns (r: Result<(), BookError>)
    requires db.Valid() && a < |db.advances|
    modifies db
    ensures db.Valid()
    ensures db.Follows(BookSteps.ClawBack(old(db.Contents()), e, a, amount, reversal, feeFirst), r)
    ensures |db.advances| == |old(db.advances)|
  {
    hide BookTables.SetOutstanding, BookTables.ReAddUtilisation, BookTables.PostEvent, BackSplit, Rows, Seeded;
    var adv := db.advances[a];
    var feeReversed :- Unallocate(db, e, a, amount, feeFirst);
    var to := if adv.state.Closed? then PartiallyRecovered else adv.state;
    var _ :- db.SetOutstanding(a, adv.version, adv.state, to, adv.outstanding + amount);
    var _ :- db.ReAddUtilisation(adv.pool, amount);
    var feeRecog := if adv.deferred then feeReversed else 0;
    SymbolsSuffice(EventType.RecoveryReversed);
    r := db.PostEvent(ReversedKey(e, reversal), EventType.RecoveryReversed,
                      map[Amount := Naira(amount), FeeRecognized := Naira(feeRecog)], Amounts(amount, feeRecog));
  }

  method ApplyReversal(db: Tables, e: Id, amount: int, reversal: Id, feeFirst: bool) returns (r: Result<(), BookError>)
    requires db.Valid()
    modifies db
    ensures db.Valid()
    ensures db.Follows(BookSteps.ApplyReversal(old(db.Contents()), e, amount, reversal, feeFirst), r)
  {
    hide BookSteps.ClawBack, NetApplied, ReceivableAdvance, BookTables.SetEventState;
    if reversal in db.reversals {
      if db.reversals[reversal].original != e || db.reversals[reversal].amount != amount {
        return Err(DivergentReversal);
      }
      return Ok(());
    }
    var net, a := db.NetAppliedByEvent(e);
    if a.None? {
      return Err(NoReceivableAllocations);
    }
    if amount > net {
      return Err(ExceedsNetApplied);
    }
    if a.value >= |db.advances| {
      return Err(NotFound);
    }
    var was := db.advances[a.value].state;
    if !IsLive(was) && !was.Closed? {
      return Err(NotReversible);
    }
    var _ :- ClawBack(db, e, a.value, amount, reversal, feeFirst);
    if amount == net {
      var _ :- db.SetEventState(e, Allocated, Reversed);
    }
    db.reversals := db.reversals[reversal := Reversal(e, amount, was.Closed?)];
    return Ok(());
  }

  /** Runs the reversal under a savepoint. */
  method ApplyReversalGuarded(db: Tables, e: Id, amount: int, reversal: Id, feeFirst: bool)
    returns (r: Result<Option<ParkReason>, BookError>)
    requires db.Valid()
    modifies db
    ensures db.Valid()
    ensures match BookSteps.ApplyReversalGuarded(old(db.Contents()), e, amount, reversal, feeFirst)
            case Applied(b) => r == Ok(None) && db.Contents() == b
            case Collided(reason) => r == Ok(Some(reason)) && db.Contents() == old(db.Contents())
            case Failed(x) => r == Err(x)
  {
    hide BookSteps.ApplyReversal;
    var savepoint := db.Contents();
    var applied := ApplyReversal(db, e, amount, reversal, feeFirst);
    if applied.Ok? {
      return Ok(None);
    }
    db.Rollback(savepoint);
    match applied.error
    case ConcurrentAdvance => return Ok(Some(SubscriberHasOpenAdvance));
    case PoolOverAllocated => return Ok(Some(PoolHeadroom));
    case _ => return Err(applied.error);
  }

  method SetParkReason(db: Tables, k: Id, reason: ParkReason)
    requires k < |db.parked|
    modifies db`parked
    ensures db.Contents() == BookSteps.SetParkReason(old(db.Contents()), k, reason)
  {
    db.parked := db.parked[k := db.parked[k].(reason := reason)];
  }

  method MarkApplied(db: Tables, k: Id)
    requires k < |db.parked|
    modifies db`parked
    ensures db.Contents() == BookSteps.MarkApplied(old(db.Contents()), k)
  {
    db.parked := db.parked[k := db.parked[k].(waiting := false)];
  }

  method TryParked(db: Tables, k: Id, e: Id, feeFirst: bool) returns (r: Result<(), BookError>)
    requires db.Valid() && k < |db.parked|
    modifies db
    ensures db.Valid()
    ensures db.Follows(BookSteps.TryParked(old(db.Contents()), k, e, feeFirst), r)
  {
    hide BookSteps.ApplyReversalGuarded, BookSteps.SetParkReason, BookSteps.MarkApplied;
    var p := db.parked[k];
    var collision :- ApplyReversalGuarded(db, e, p.amount, p.reversal, feeFirst);
    if collision.Some? {
      SetParkReason(db, k, collision.value);
      return Ok(());
    }
    if k >= |db.parked| {
      return Err(NotFound);
    }
    MarkApplied(db, k);
    return Ok(());
  }

  method ApplyParkedIfAny(db: Tables, e: Id, feeFirst: bool) returns (r: Result<(), BookError>)
    requires db.Valid()
    modifies db
    ensures db.Valid()
    ensures db.Follows(BookSteps.ApplyParkedIfAny(old(db.Contents()), e, feeFirst), r)
  {
    hide BookSteps.TryParked, FindParked;
    var k := db.FindParkedForOriginal(e);
    if k.None? {
      return Ok(());
    }
    r := TryParked(db, k.value, e, feeFirst);
  }

  method Reverse(db: Tables, reversal: Id, e: Id, amount: int, feeFirst: bool) returns (r: Result<ReverseResult, BookError>)
    requires db.Valid()
    modifies db
    ensures db.Valid()
    ensures Answers(db, BookSteps.Reverse(old(db.Contents()), reversal, e, amount, feeFirst), r)
  {
    hide BookSteps.ApplyReversalGuarded, Park, FindParked, ParkConflict, BookSteps.SetParkReason, BookSteps.MarkApplied;
    if amount <= 0 {
      return Err(BadAmount);
    }
    if reversal in db.reversals {
      var done := db.reversals[reversal];
      if done.original != e || done.amount != amount {
        return Err(DivergentReversal);
      }
      return Ok(ReverseApplied(done.amount, done.reopened));
    }
    if e !in db.events {
      var _ := db.InsertParked(Parked(e, reversal, amount, true, OriginalUnseen));
      var row := db.FindParkedForOriginal(e);
      if row.None? {
        return Err(NotFound);
      }
      return Ok(ReverseParked);
    }
    if db.events[e].state != Allocated {
      var _ := db.InsertParked(Parked(e, reversal, amount, true, OriginalNotAllocated));
      return Ok(ReverseParked);
    }
    var collision :- ApplyReversalGuarded(db, e, amount, reversal, feeFirst);
    if collision.Some? {
      var created := db.InsertParked(Parked(e, reversal, amount, true, collision.value));
      if !created {
        var row := db.FindParkedForOriginal(e);
        if row.None? {
          return Err(NotFound);
        }
        SetParkReason(db, row.value, collision.value);
      }
      return Ok(ReverseParked);
    }
    if reversal !in db.reversals {
      return Err(NotFound);
    }
    var reopened := db.reversals[reversal].reopened;
    var row := db.FindParkedForOriginal(e);
    if row.Some? {
      MarkApplied(db, row.value);
    }
    return Ok(ReverseApplied(amount, reopened));
  }

  method RetryParked(db: Tables, k: Id, feeFirst: bool) returns (r: Result<(), BookError>)
    requires db.Valid()
    modifies db
    ensures db.Valid()
    ensures db.Follows(BookSteps.RetryParked(old(db.Contents()), k, feeFirst), r)
  {
    hide BookSteps.TryParked, BookSteps.SetParkReason;
    if k >= |db.parked| || !db.parked[k].waiting {
      return Err(NotFound);
    }
    var e := db.parked[k].original;
    if e !in db.events {
      SetParkReason(db, k, OriginalUnseen);
      return Ok(());
    }
    if db.events[e].state != Allocated {
      SetParkReason(db, k, OriginalNotAllocated);
      return Ok(());
    }
    r := TryParked(db, k, e, feeFirst);
  }

  // ------------------------------------------------------------------ write-off

  /** The fee and principal still owed, from the net recovered so far. */
  method OutstandingSplit(db: Tables, a: Id) returns (fee: int, principal: int)
    requires a < |db.advances|
    ensures fee == FeeRemaining(db.Contents(), a) && principal == db.advances[a].outstanding - fee
  {
    var recovered := db.SumByComponent(a);
    fee := db.advances[a].offer.fee - SumOf(recovered, FeePart);
    if fee < 0 {
      fee := 0;
    }
    principal := db.advances[a].outstanding - fee;
  }

  method RequestWriteOff(db: Tables, a: Id, actor: Id, eligible: bool) returns (r: Result<(), BookError>)
    modifies db`writeOffs
    ensures db.Follows(BookSteps.RequestWriteOff(old(db.Contents()), a, actor, eligible), r)
  {
    hide FeeRemaining;
    if a >= |db.advances| {
      return Err(NotFound);
    }
    if !IsLive(db.advances[a].state) {
      return Err(NotWritable);
    }
    if !eligible {
      return Err(NotEligible);
    }
    var fee, principal := OutstandingSplit(db, a);
    var w := 0;
    while w < |db.writeOffs|
      invariant 0 <= w <= |db.writeOffs|
      invariant forall v | 0 <= v < w :: !(db.writeOffs[v].advance == a && !db.writeOffs[v].state.WoRejected?)
    {
      if db.writeOffs[w].advance == a && !db.writeOffs[w].state.WoRejected? {
        return Err(WriteOffExists);
      }
      w := w + 1;
    }
    if principal < 0 || principal + fee <= 0 {
      return Err(CheckViolation);
    }
    db.writeOffs := db.writeOffs + [WriteOff(a, principal, fee, actor, None, WoRequested)];
    return Ok(());
  }

  method Decide(db: Tables, w: Id, approver: Id, to: WriteOffState) returns (r: Result<(), BookError>)
    modifies db`writeOffs
    ensures db.Follows(BookSteps.Decide(old(db.Contents()), w, approver, to), r)
    ensures r.Ok? ==> w < |db.writeOffs|
  {
    if w >= |db.writeOffs| || !db.writeOffs[w].state.WoRequested? {
      return Err(NotFound);
    }
    if approver == db.writeOffs[w].requestedBy {
      return Err(SelfApproval);
    }
    db.writeOffs := db.writeOffs[w := db.writeOffs[w].(state := to, approvedBy := Some(approver))];
    return Ok(());
  }

  method ApproveWriteOff(db: Tables, w: Id, approver: Id, disputed: bool) returns (r: Result<(), BookError>)
    requires db.Valid()
    modifies db
    ensures db.Valid()
    ensures db.Follows(BookSteps.ApproveWriteOff(old(db.Contents()), w, approver, disputed), r)
  {
    hide BookTables.SetOutstanding, BookTables.ReduceUtilisation, BookTables.PostEvent, FeeRemaining, Seeded;
    var _ :- Decide(db, w, approver, WoApproved);
    var a := db.writeOffs[w].advance;
    if a >= |db.advances| {
      return Err(NotFound);
    }
    var adv := db.advances[a];
    if !IsLive(adv.state) {
      return Err(NotWritable);
    }
    if disputed {
      return Err(DisputeBlocked);
    }
    var feeRem, _ := OutstandingSplit(db, a);
    var _ :- db.SetOutstanding(a, adv.version, adv.state, WrittenOff, 0);
    var _ :- db.ReduceUtilisation(adv.pool, adv.outstanding);
    var unearned := if adv.deferred then feeRem else 0;
    SymbolsSuffice(EventType.WriteOffPosted);
    var _ :- db.PostEvent(WriteOffKey(w), EventType.WriteOffPosted,
                          map[Amount := Naira(adv.outstanding), FeeUnearnedReversed := Naira(unearned)],
                          Values(0, 0, adv.outstanding, 0, 0, unearned));
    db.writeOffs := db.writeOffs[w := db.writeOffs[w].(state := WoPosted)];
    return Ok(());
  }

  // ------------------------------------------------------------------ transactions

  /** One transaction on the tables: what the run machine does in one step, so the invariant of every
      reachable state is kept in place. */
  method Execute(db: Tables, c: Command) returns (r: Result<(), BookError>)
    requires Inv(db.Contents())
    modifies db
    ensures db.Contents() == Step(old(db.Contents()), c)
    ensures Inv(db.Contents())
    ensures match BookSteps.Attempt(old(db.Contents()), c) case Ok(_) => r == Ok(()) case Err(e) => r == Err(e)
  {
    hide BookSteps.Accept, BookSteps.Resolve, BookSteps.Reschedule, BookSteps.Ingest, BookSteps.Reverse, BookSteps.RetryParked,
      BookSteps.RequestWriteOff, BookSteps.ApproveWriteOff, BookSteps.Decide, Inv;
    var savepoint := db.Contents();
    StepKeepsInv(db.Contents(), c);
    ReadyToPost(db.Contents());
    match c {
      case CmdAccept(subscriber, programme, offer, deferred) => r := Accept(db, subscriber, programme, offer, deferred);
      case CmdResolve(a, outcome) => r := Resolve(db, a, outcome);
      case CmdReschedule(a) => r := Reschedule(db, a);
      case CmdIngest(cmd) =>
        var res := Ingest(db, cmd);
        r := if res.Ok? then Ok(()) else Err(res.error);
      case CmdReverse(reversal, e, amount, feeFirst) =>
        var res := Reverse(db, reversal, e, amount, feeFirst);
        r := if res.Ok? then Ok(()) else Err(res.error);
      case CmdRetryParked(k, feeFirst) => r := RetryParked(db, k, feeFirst);
      case CmdRequestWriteOff(a, actor, eligible) => r := RequestWriteOff(db, a, actor, eligible);
      case CmdApproveWriteOff(w, actor, disputed) => r := ApproveWriteOff(db, w, actor, disputed);
      case CmdRejectWriteOff(w, actor) => r := Decide(db, w, actor, WoRejected);
    }
    if r.Err? {
      db.Rollback(savepoint);
    }
  }

  /** The invariant gives what the tables need: unique journal keys, and pending advances owing what was offered. */
  lemma ReadyToPost(b: Book)
    requires Inv(b)
    ensures UniqueKeys(b.journals)
    ensures forall a | 0 <= a < |b.advances| && IsPending(b.advances[a].state) ::
              b.advances[a].outstanding == b.advances[a].offer.repayment
  {
    forall a | 0 <= a < |b.advances| && IsPending(b.advances[a].state)
      ensures b.advances[a].outstanding == b.advances[a].offer.repayment
    {
      assert AdvanceOk(b, a);
    }
  }
}
