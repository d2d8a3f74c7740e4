/** Across transactions: repeated commands get their first answer, a full reversal undoes its recovery, and
    where the parking queue falls short of what it promises. */
module BookAnswers {
  import opened BookChecks
  import opened BookIngest
  import opened BookInvariant
  import opened BookMoney
  import opened BookOrigination
  import opened BookReferences
  import opened BookReversal
  import opened BookRuns
  import opened BookSafety
  import opened BookSteps
  import opened BookTables
  import opened BookWriteOff
  import opened Common
  import opened Ledger
  import opened Templates

  // ------------------------------------------------------------------ first answers last

  /** Stored answers are never changed or dropped. */
  ghost predicate AnswersKept(b: Book, b2: Book) {
    && (forall e | e in b.ingested :: e in b2.ingested && b2.ingested[e] == b.ingested[e])
    && (forall r | r in b.reversals :: r in b2.reversals && b2.reversals[r] == b.reversals[r])
  }

  lemma UsedOnce(b: Book, e: Id, amount: int, r: Id)
    requires Claimable(b, e, amount, r)
    ensures r !in b.reversals && e in b.events && ReceivableAdvance(b.allocs, e).Some?
    ensures ReceivableAdvance(b.allocs, e).value < |b.advances|
  {
    hide Tally;
  }

  lemma ReversalKeepsAnswers(b: Book, e: Id, amount: int, r: Id, feeFirst: bool)
    requires Base(b) && e in b.events && b.events[e].state.Allocated? && amount > 0
    requires ApplyReversal(b, e, amount, r, feeFirst).Ok?
    ensures AnswersKept(b, ApplyReversal(b, e, amount, r, feeFirst).value)
  {
    hide ApplyReversal, ReversedBook, Base, AdvanceOk, BackSplit, Rows, Lines, Seeded, Claimable, NetApplied, Tally,
      SlotTaken;
    ReversalOutcome(b, e, amount, r, feeFirst);
    if Claimable(b, e, amount, r) {
      ClaimableIsReversible(b, e, amount, r);
      UsedOnce(b, e, amount, r);
      PoolOfOk(b, ReceivableAdvance(b.allocs, e).value);
      ReversedFields(b, e, ReceivableAdvance(b.allocs, e).value, amount, r, feeFirst);
    }
  }

  lemma TryParkedKeepsAnswers(b: Book, k: Id, e: Id, feeFirst: bool)
    requires Base(b) && k < |b.parked| && e in b.events && b.events[e].state.Allocated?
    requires TryParked(b, k, e, feeFirst).Ok?
    ensures AnswersKept(b, TryParked(b, k, e, feeFirst).value)
  {
    hide ApplyReversal, Base, RowOk;
    var p := b.parked[k];
    ParkedPositive(b, k);
    if ApplyReversal(b, e, p.amount, p.reversal, feeFirst).Ok? {
      ReversalKeepsAnswers(b, e, p.amount, p.reversal, feeFirst);
    }
  }

  lemma IngestKeepsAnswers(b: Book, cmd: IngestCmd)
    requires Inv(b) && Ingest(b, cmd).Ok?
    ensures AnswersKept(b, Ingest(b, cmd).value.0)
    ensures cmd.source in Ingest(b, cmd).value.0.ingested
    ensures Ingest(b, cmd).value.0.ingested[cmd.source] == Ingested(cmd.payload, Ingest(b, cmd).value.1)
  {
    hide Base, Recover, FindLive, FindWrittenOff, Lines, Seeded, Accepted, KeyTaken;
    if cmd.source !in b.ingested && cmd.subscriber.Some? {
      FindLiveIs(b.advances, cmd.subscriber.value);
      var live := FindLive(b.advances, cmd.subscriber.value);
      if live.Some? {
        RecoverKeepsAnswers(b, cmd, live.value);
      }
    }
  }

  lemma ParkedAnswers(b: Book, b3: Book, e: Id, feeFirst: bool)
    requires Base(b3) && e in b3.events && b3.events[e].state.Allocated?
    requires b3.ingested == b.ingested && b3.reversals == b.reversals
    ensures var res := ApplyParkedIfAny(b3, e, feeFirst); res.Ok? ==> AnswersKept(b, res.value)
  {
    hide Base, TryParked;
    FindParkedIs(b3.parked, e);
    hide FindParked;
    var found := FindParked(b3.parked, e);
    if found.Some? && TryParked(b3, found.value, e, feeFirst).Ok? {
      TryParkedKeepsAnswers(b3, found.value, e, feeFirst);
    }
  }

  lemma RecoverKeepsAnswers(b: Book, cmd: IngestCmd, a: Id)
    requires Inv(b) && cmd.payload.amount > 0 && cmd.source !in b.events
    requires a < |b.advances| && IsLive(b.advances[a].state)
    requires Recover(WithEvent(b, cmd, Pending), cmd, a).Ok?
    ensures AnswersKept(b, Recover(WithEvent(b, cmd, Pending), cmd, a).value.0)
  {
    hide *;
    InvAdvance(b, a);
    FreshSource(b, cmd.source);
    RecoverParts(b, cmd, a);
    BookedKeepsBase(b, cmd, a);
    var b3 := BookedRecovery(b, cmd, a);
    WithEventKeys(b, cmd, Allocated);
    ParkedAnswers(b, b3, cmd.source, cmd.feeFirst);
  }

  lemma ReverseKeepsAnswers(b: Book, r: Id, e: Id, amount: int, feeFirst: bool)
    requires Inv(b) && Reverse(b, r, e, amount, feeFirst).Ok?
    ensures AnswersKept(b, Reverse(b, r, e, amount, feeFirst).value.0)
  {
    hide Base;
    if e in b.events && b.events[e].state.Allocated? && amount > 0 && ApplyReversal(b, e, amount, r, feeFirst).Ok? {
      ReversalKeepsAnswers(b, e, amount, r, feeFirst);
    }
    hide ApplyReversal;
  }

  lemma RetryKeepsAnswers(b: Book, k: Id, feeFirst: bool)
    requires Inv(b) && RetryParked(b, k, feeFirst).Ok?
    ensures AnswersKept(b, RetryParked(b, k, feeFirst).value)
  {
    hide Base, TryParked;
    var e := b.parked[k].original;
    if e in b.events && b.events[e].state.Allocated? {
      TryParkedKeepsAnswers(b, k, e, feeFirst);
    }
  }

  lemma ResolveKeepsAnswers(b: Book, a: Id, outcome: Outcome)
    requires Inv(b) && Resolve(b, a, outcome).Ok?
    ensures AnswersKept(b, Resolve(b, a, outcome).value)
  {
    if a < |b.advances| && IsPending(b.advances[a].state) {
      NotIssuedYet(b, a);
      ResolveGoesThrough(b, a, outcome);
      hide Resolve, Inv, Lines, Seeded, Core;
    }
  }

  lemma ApproveKeepsAnswers(b: Book, w: Id, actor: Id, disputed: bool)
    requires Inv(b) && ApproveWriteOff(b, w, actor, disputed).Ok?
    ensures AnswersKept(b, ApproveWriteOff(b, w, actor, disputed).value)
  {
    ApproveOutcome(b, w, actor, disputed);
    NotPostedYet(b, w);
    ApproveParts(b, w, actor);
    CrystallisedFields(b, w, b.writeOffs[w].advance);
    hide ApproveWriteOff, Inv, Core, KeyTaken, Crystallised;
  }

  lemma OtherKeepsAnswers(b: Book, c: Command)
    requires Inv(b) && BookSteps.Attempt(b, c).Ok?
    requires c.CmdAccept? || c.CmdReschedule? || c.CmdRequestWriteOff? || c.CmdRejectWriteOff?
    ensures AnswersKept(b, Step(b, c))
  {
    hide Inv, Base, Accept, FeeRemaining, HasLiveWriteOff, SlotTaken, Core;
    if c.CmdAccept? {
      PoolsFit(b);
      AcceptGoesThrough(b, c.subscriber, c.programme, c.offer, c.deferred);
    }
  }

  lemma StepKeepsAnswers(b: Book, c: Command)
    requires Inv(b)
    ensures AnswersKept(b, Step(b, c))
  {
    hide Inv, Accept, Resolve, Reschedule, Ingest, Reverse, RetryParked, RequestWriteOff, ApproveWriteOff,
      RejectWriteOff;
    if BookSteps.Attempt(b, c).Ok? {
      match c
      case CmdResolve(a, outcome) => ResolveKeepsAnswers(b, a, outcome);
      case CmdIngest(cmd) => IngestKeepsAnswers(b, cmd);
      case CmdReverse(r, e, amount, feeFirst) => ReverseKeepsAnswers(b, r, e, amount, feeFirst);
      case CmdRetryParked(k, feeFirst) => RetryKeepsAnswers(b, k, feeFirst);
      case CmdApproveWriteOff(w, actor, disputed) => ApproveKeepsAnswers(b, w, actor, disputed);
      case _ => OtherKeepsAnswers(b, c);
    }
  }

  lemma {:induction false} RunKeepsAnswers(b: Book, cs: seq<Command>)
    requires Inv(b)
    ensures Inv(Run(b, cs)) && AnswersKept(b, Run(b, cs))
  {
    if cs != [] {
      var b1 := Run(b, cs[..|cs| - 1]);
      RunKeepsAnswers(b, cs[..|cs| - 1]);
      StepKeepsInv(b1, cs[|cs| - 1]);
      StepKeepsAnswers(b1, cs[|cs| - 1]);
      hide Inv, Step;
    }
  }

  /** A recovery event delivered again, after any further run, changes nothing and gets its first answer;
      the same source id with another payload is refused for ever. */
  lemma IngestReplays(b: Book, cmd: IngestCmd, cs: seq<Command>, again: IngestCmd)
    requires Inv(b) && Ingest(b, cmd).Ok? && again.source == cmd.source
    ensures var b1 := Ingest(b, cmd).value.0;
            && (again.payload == cmd.payload ==> Ingest(Run(b1, cs), again) == Ok((Run(b1, cs), Ingest(b, cmd).value.1)))
            && (again.payload != cmd.payload ==> Ingest(Run(b1, cs), again).Err?)
  {
    IngestOutcome(b, cmd);
    IngestKeepsAnswers(b, cmd);
    var b1 := Ingest(b, cmd).value.0;
    RunKeepsAnswers(b1, cs);
    assert cmd.source in b.ingested ==> b.ingested[cmd.source].payload == cmd.payload;
    assert cmd.payload.amount > 0;
    hide Inv, Run, ClassifyAndApply, IngestRefused;
  }

  /** A reversal that was applied answers every repeat the same, after any further run, and never claws back
      twice. */
  lemma ReverseReplays(b: Book, r: Id, e: Id, amount: int, feeFirst: bool, cs: seq<Command>, again: int, order: bool)
    requires Inv(b) && Reverse(b, r, e, amount, feeFirst).Ok? && Reverse(b, r, e, amount, feeFirst).value.1.ReverseApplied?
    requires again > 0
    ensures var (b1, answer) := Reverse(b, r, e, amount, feeFirst).value;
            && (again == amount ==> Reverse(Run(b1, cs), r, e, again, order) == Ok((Run(b1, cs), answer)))
            && (again != amount ==> Reverse(Run(b1, cs), r, e, again, order) == Err(DivergentReversal))
  {
    ReverseKeepsInv(b, r, e, amount, feeFirst);
    ReverseRecords(b, r, e, amount, feeFirst);
    var b1 := Reverse(b, r, e, amount, feeFirst).value.0;
    RunKeepsAnswers(b1, cs);
    assert r in Run(b1, cs).reversals && Run(b1, cs).reversals[r] == b1.reversals[r];
    hide Inv, Run, ApplyReversalGuarded;
  }

  lemma ReverseRecords(b: Book, r: Id, e: Id, amount: int, feeFirst: bool)
    requires Inv(b) && Reverse(b, r, e, amount, feeFirst).Ok? && Reverse(b, r, e, amount, feeFirst).value.1.ReverseApplied?
    ensures var (b1, answer) := Reverse(b, r, e, amount, feeFirst).value;
            && r in b1.reversals && b1.reversals[r].original == e && b1.reversals[r].amount == amount
            && answer == ReverseApplied(amount, b1.reversals[r].reopened)
  {
    hide Base;
    if e in b.events && b.events[e].state.Allocated? && amount > 0 && r !in b.reversals
       && ApplyReversal(b, e, amount, r, feeFirst).Ok?
    {
      AppliedKeepsBase(b, e, amount, r, feeFirst);
    }
    hide ApplyReversal;
  }

  // ------------------------------------------------------------------ a full reversal undoes its recovery

  /** Whatever the waterfall's order then, taking everything back takes back each component in full. */
  lemma DivideAll(fee: int, principal: int, feeFirst: bool)
    requires fee >= 0 && principal >= 0
    ensures Divide(fee + principal, fee, principal, feeFirst) == Split(fee, principal)
  {
  }

  /** What the money cross-checks of advance `a` see. */
  ghost predicate SameMoney(b: Book, b2: Book, a: Id) {
    && |b2.advances| == |b.advances| && a < |b.advances|
    && b2.pools == b.pools
    && b2.advances[a].outstanding == b.advances[a].outstanding
    && Tally(b2.allocs, OfAdvance(a, FeePart)) == Tally(b.allocs, OfAdvance(a, FeePart))
    && Tally(b2.allocs, OfAdvance(a, PrincipalPart)) == Tally(b.allocs, OfAdvance(a, PrincipalPart))
    && (forall i | 0 <= i < |b.advances| && i != a :: b2.advances[i] == b.advances[i])
    && AccountBalance(b2.journals, SubscriberReceivable, CURRENCY) == AccountBalance(b.journals, SubscriberReceivable, CURRENCY)
    && AccountBalance(b2.journals, UnearnedFee, CURRENCY) == AccountBalance(b.journals, UnearnedFee, CURRENCY)
  }

  /** The reversal of the whole applied part of a recovery just booked cannot collide, and it restores the
      pool, the obligation, both components and the ledger, even when the waterfall's order changed in
      between. The event is left REVERSED. */
  lemma FullReversalRestores(b: Book, cmd: IngestCmd, a: Id, r: Id, order: bool)
    requires Base(b) && cmd.source !in b.events && cmd.payload.amount > 0 && r !in b.reversals
    requires a < |b.advances| && IsLive(b.advances[a].state)
    ensures AdvanceOk(b, a)
    ensures var b3 := BookedRecovery(b, cmd, a);
            var applied := Min(cmd.payload.amount, b.advances[a].outstanding);
            var res := ApplyReversal(b3, cmd.source, applied, r, order);
            && res.Ok? && SameMoney(b, res.value, a)
            && cmd.source in res.value.events && res.value.events[cmd.source].state.Reversed?
            && IsLive(res.value.advances[a].state)
  {
    hide *;
    BaseFacts(b, a);
    BookedReverses(b, cmd, a, r, order);
    var applied := Min(cmd.payload.amount, b.advances[a].outstanding);
    var b3 := BookedRecovery(b, cmd, a);
    var b4 := ReversedBook(b3, cmd.source, a, applied, r, order);
    ReversedFields(b3, cmd.source, a, applied, r, order);
    BookedMoney(b, cmd, a);
    BaseFacts(b4, a);
    LiveAgain(b3.advances[a].state, b4.advances[a].state);
    FullReversalMoney(b, b3, b4, cmd, a, r, order, applied);
  }

  lemma FullReversalMoney(b: Book, b3: Book, b4: Book, cmd: IngestCmd, a: Id, r: Id, order: bool, applied: int)
    requires Base(b) && cmd.source !in b.events && cmd.payload.amount > 0
    requires a < |b.advances| && IsLive(b.advances[a].state) && AdvanceOk(b, a) && applied == Min(cmd.payload.amount, b.advances[a].outstanding)
    requires b3 == BookedRecovery(b, cmd, a) && a < |b3.advances| && b3.advances[a].pool.Some?
    requires b3.advances[a].pool.value < |b3.pools| && cmd.source in b3.events
    requires b4 == ReversedBook(b3, cmd.source, a, applied, r, order) && a < |b4.advances| && IsLive(b4.advances[a].state)
    requires LedgerMatches(b4)
    ensures SameMoney(b, b4, a)
  {
    hide *;
    BaseFacts(b, a);
    BookedMoney(b, cmd, a);
    BookedSplit(b, cmd, a, order);
    ReversedFields(b3, cmd.source, a, applied, r, order);
    WithEventKeys(b, cmd, Allocated);
    var s := WaterfallSplit(WithEvent(b, cmd, Allocated), a, applied, cmd.feeFirst);
    BothWays(b, b3, b4, a, cmd.source, applied, s, cmd.feeFirst, order);
  }

  /** Recovery and reversal cancel, table by table; the balances then follow from the cross-checks. */
  lemma BothWays(b: Book, b3: Book, b4: Book, a: Id, e: Id, applied: int, s: Split, first: bool, order: bool)
    requires LedgerMatches(b) && LedgerMatches(b4) && a < |b.advances| == |b3.advances| == |b4.advances|
    requires b.advances[a].pool.Some? && b.advances[a].pool.value < |b.pools| && IsLive(b.advances[a].state)
    requires b3.advances[a] == b.advances[a].(outstanding := b.advances[a].outstanding - applied,
                                              version := b3.advances[a].version, state := b3.advances[a].state)
    requires b4.advances[a] == b3.advances[a].(outstanding := b3.advances[a].outstanding + applied,
                                               version := b4.advances[a].version, state := b4.advances[a].state)
    requires IsLive(b4.advances[a].state)
    requires forall i | 0 <= i < |b.advances| && i != a :: b3.advances[i] == b.advances[i]
    requires forall i | 0 <= i < |b.advances| && i != a :: b4.advances[i] == b3.advances[i]
    requires b3.allocs == b.allocs + Rows(e, a, s, first)
    requires b4.allocs == b3.allocs + Rows(e, a, Split(-s.fee, -s.principal), !order)
    requires var p, q := b.advances[a].pool.value, b.pools[b.advances[a].pool.value];
             b3.pools == b.pools[p := q.(utilised := q.utilised - applied)]
    requires var p := b.advances[a].pool.value; var q := b3.pools[p];
             b4.pools == b3.pools[p := q.(utilised := q.utilised + applied)]
    ensures SameMoney(b, b4, a)
  {
    hide *;
    RestoredAllocs(b.allocs, e, a, s, first, order);
    RestoredPools(b.pools, b.advances[a].pool.value, applied);
    RestoredMoney(b, b4, a);
    SameMoneyIs(b, b4, a);
  }

  lemma BaseFacts(b: Book, a: Id)
    requires Base(b) && a < |b.advances|
    ensures AdvanceOk(b, a) && LedgerMatches(b) && b.advances[a].pool.Some? && b.advances[a].pool.value < |b.pools|
  {
    hide Tally;
  }

  lemma LiveAgain(y: AdvanceState, z: AdvanceState)
    requires y == Closed || y == PartiallyRecovered
    requires z == if y.Closed? then PartiallyRecovered else y
    ensures IsLive(z)
  {
  }

  lemma SameMoneyIs(b: Book, b2: Book, a: Id)
    requires |b2.advances| == |b.advances| && a < |b.advances| && b2.pools == b.pools
    requires b2.advances[a].outstanding == b.advances[a].outstanding
    requires Tally(b2.allocs, OfAdvance(a, FeePart)) == Tally(b.allocs, OfAdvance(a, FeePart))
    requires Tally(b2.allocs, OfAdvance(a, PrincipalPart)) == Tally(b.allocs, OfAdvance(a, PrincipalPart))
    requires forall i | 0 <= i < |b.advances| && i != a :: b2.advances[i] == b.advances[i]
    requires AccountBalance(b2.journals, SubscriberReceivable, CURRENCY) == AccountBalance(b.journals, SubscriberReceivable, CURRENCY)
    requires AccountBalance(b2.journals, UnearnedFee, CURRENCY) == AccountBalance(b.journals, UnearnedFee, CURRENCY)
    ensures SameMoney(b, b2, a)
  {
  }

  lemma BookedReverses(b: Book, cmd: IngestCmd, a: Id, r: Id, order: bool)
    requires Base(b) && cmd.source !in b.events && cmd.payload.amount > 0 && r !in b.reversals
    requires a < |b.advances| && IsLive(b.advances[a].state) && AdvanceOk(b, a)
    ensures var b3 := BookedRecovery(b, cmd, a);
            var applied := Min(cmd.payload.amount, b.advances[a].outstanding);
            && a < |b3.advances| && b3.advances[a].pool.Some? && b3.advances[a].pool.value < |b3.pools| && cmd.source in b3.events
            && b3.events[cmd.source].state.Allocated? && applied == NetApplied(b3, cmd.source)
            && ApplyReversal(b3, cmd.source, applied, r, order) == Ok(ReversedBook(b3, cmd.source, a, applied, r, order))
            && Base(ReversedBook(b3, cmd.source, a, applied, r, order))
  {
    var e := cmd.source;
    assert b.advances[a].pool.Some? && b.advances[a].pool.value < |b.pools| && b.advances[a].outstanding > 0;
    BookedKeepsBase(b, cmd, a);
    WithEventKeys(b, cmd, Allocated);
    BookedClaimable(b, cmd, a, r);
    BookedCannotCollide(b, cmd, a);
    var b3 := BookedRecovery(b, cmd, a);
    var applied := Min(cmd.payload.amount, b.advances[a].outstanding);
    ReversalOutcome(b3, e, applied, r, order);
    hide *;
    AppliedKeepsBase(b3, e, applied, r, order);
  }

  /** The event just booked can be claimed back in full. */
  lemma BookedClaimable(b: Book, cmd: IngestCmd, a: Id, r: Id)
    requires Base(b) && cmd.source !in b.events && cmd.payload.amount > 0 && r !in b.reversals
    requires a < |b.advances| && IsLive(b.advances[a].state) && AdvanceOk(b, a)
    ensures var b3 := BookedRecovery(b, cmd, a);
            var applied := Min(cmd.payload.amount, b.advances[a].outstanding);
            && Claimable(b3, cmd.source, applied, r) && ReceivableAdvance(b3.allocs, cmd.source) == Some(a)
            && applied == NetApplied(b3, cmd.source) && b3.events[cmd.source].state.Allocated?
  {
    assert b.advances[a].outstanding > 0;
    BookedKeepsBase(b, cmd, a);
    BookedEvent(b, cmd, a);
    WithEventKeys(b, cmd, Allocated);
    var b3 := BookedRecovery(b, cmd, a);
    BaseRows(b3);
    ReceivableAdvanceIs(b3.allocs, cmd.source);
    hide Base, BookedRecovery, NetApplied, Tally, RowOk, AdvanceOk, QueuesOk;
  }

  lemma BookedCannotCollide(b: Book, cmd: IngestCmd, a: Id)
    requires Base(b) && a < |b.advances| && IsLive(b.advances[a].state) && AdvanceOk(b, a)
    ensures var b3 := BookedRecovery(b, cmd, a);
            var adv := b.advances[a];
            && a < |b3.advances| && b3.advances[a].pool == adv.pool && b3.advances[a].subscriber == adv.subscriber
            && |b3.pools| == |b.pools|
            && !SlotTaken(b3, a, adv.subscriber)
            && var q := b3.pools[adv.pool.value];
               q.reserved + q.utilised + Min(cmd.payload.amount, adv.outstanding) <= q.committed
  {
    assert OneActive(b) && b.pools[b.advances[a].pool.value].Fits();
    hide Base;
    BookedMoney(b, cmd, a);
    hide BookedRecovery, AdvanceOk;
    SlotFree(b, BookedRecovery(b, cmd, a), a);
  }

  /** A booked event holds its split, so taking everything back takes exactly the split. */
  lemma BookedSplit(b: Book, cmd: IngestCmd, a: Id, order: bool)
    requires Base(b) && cmd.source !in b.events && cmd.payload.amount > 0
    requires a < |b.advances| && IsLive(b.advances[a].state) && AdvanceOk(b, a)
    ensures var b3 := BookedRecovery(b, cmd, a);
            var applied := Min(cmd.payload.amount, b.advances[a].outstanding);
            var s := WaterfallSplit(WithEvent(b, cmd, Allocated), a, applied, cmd.feeFirst);
            && b3.allocs == b.allocs + Rows(cmd.source, a, s, cmd.feeFirst)
            && BackSplit(b3, cmd.source, applied, order) == s
  {
    hide *;
    BaseFacts(b, a);
    LiveOwes(b, a);
    var applied := Min(cmd.payload.amount, b.advances[a].outstanding);
    var bf := WithEvent(b, cmd, Allocated);
    BookedSplitOk(b, cmd, a, applied);
    var s := WaterfallSplit(bf, a, applied, cmd.feeFirst);
    FreshSource(b, cmd.source);
    BookedRows(b, cmd, a);
    BackOfFresh(b.allocs, BookedRecovery(b, cmd, a), cmd.source, a, s, cmd.feeFirst, order);
  }

  lemma LiveOwes(b: Book, a: Id)
    requires a < |b.advances| && AdvanceOk(b, a) && IsLive(b.advances[a].state)
    ensures b.advances[a].outstanding > 0
    ensures forall x: int | x > 0 :: 0 < Min(x, b.advances[a].outstanding) <= b.advances[a].outstanding
  {
    hide Tally;
  }

  lemma BackOfFresh(allocs: seq<Alloc>, b3: Book, e: Id, a: Id, s: Split, feeFirst: bool, order: bool)
    requires forall i | 0 <= i < |allocs| :: allocs[i].event != e
    requires b3.allocs == allocs + Rows(e, a, s, feeFirst) && s.fee >= 0 && s.principal >= 0
    ensures BackSplit(b3, e, s.fee + s.principal, order) == s
  {
    TallyConcat(allocs, Rows(e, a, s, feeFirst), OfEvent(e, FeePart));
    TallyConcat(allocs, Rows(e, a, s, feeFirst), OfEvent(e, PrincipalPart));
    TallyRows(e, a, s, feeFirst, OfEvent(e, FeePart));
    TallyRows(e, a, s, feeFirst, OfEvent(e, PrincipalPart));
    NoRowsNoTally(allocs, e, FeePart);
    NoRowsNoTally(allocs, e, PrincipalPart);
    hide Tally, Rows;
    DivideAll(s.fee, s.principal, !order);
  }

  lemma RestoredAllocs(allocs: seq<Alloc>, e: Id, a: Id, s: Split, first: bool, order: bool)
    ensures var t := allocs + Rows(e, a, s, first) + Rows(e, a, Split(-s.fee, -s.principal), !order);
            && Tally(t, OfAdvance(a, FeePart)) == Tally(allocs, OfAdvance(a, FeePart))
            && Tally(t, OfAdvance(a, PrincipalPart)) == Tally(allocs, OfAdvance(a, PrincipalPart))
            && |allocs| <= |t| && t[..|allocs|] == allocs && RowsOf(t[|allocs|..], a)
  {
    var rows, back := Rows(e, a, s, first), Rows(e, a, Split(-s.fee, -s.principal), !order);
    TalliesAfter(allocs, e, a, s, first);
    TalliesAfter(allocs + rows, e, a, Split(-s.fee, -s.principal), !order);
    RowsBelong(e, a, s, first);
    RowsBelong(e, a, Split(-s.fee, -s.principal), !order);
    hide Tally, Rows;
    var t := allocs + rows + back;
    assert t == allocs + (rows + back);
    assert t[|allocs|..] == rows + back;
  }

  lemma RestoredPools(pools: seq<Pool>, p: Id, x: int)
    requires p < |pools|
    ensures var low := pools[p := pools[p].(utilised := pools[p].utilised - x)];
            low[p := low[p].(utilised := low[p].utilised + x)] == pools
  {
  }

  /** The ledger follows the book: with the obligation back where it was, so are both balances. */
  lemma RestoredMoney(b: Book, b4: Book, a: Id)
    requires LedgerMatches(b) && LedgerMatches(b4) && a < |b.advances| == |b4.advances|
    requires forall i | 0 <= i < |b.advances| && i != a :: b4.advances[i] == b.advances[i]
    requires |b.allocs| <= |b4.allocs| && b4.allocs[..|b.allocs|] == b.allocs && RowsOf(b4.allocs[|b.allocs|..], a)
    requires IsLive(b.advances[a].state) && IsLive(b4.advances[a].state)
    requires b4.advances[a].outstanding == b.advances[a].outstanding && b4.advances[a].deferred == b.advances[a].deferred
    requires b4.advances[a].offer == b.advances[a].offer
    requires Tally(b4.allocs, OfAdvance(a, FeePart)) == Tally(b.allocs, OfAdvance(a, FeePart))
    ensures AccountBalance(b4.journals, SubscriberReceivable, CURRENCY) == AccountBalance(b.journals, SubscriberReceivable, CURRENCY)
    ensures AccountBalance(b4.journals, UnearnedFee, CURRENCY) == AccountBalance(b.journals, UnearnedFee, CURRENCY)
  {
    hide Total, Tally;
    SameTotal(b, b4, a, ReceivableOwed);
    SameTotal(b, b4, a, FeeUnearned);
  }

  lemma SameTotal(b: Book, b4: Book, a: Id, m: Measure)
    requires a < |b.advances| == |b4.advances| && (m == ReceivableOwed || m == FeeUnearned)
    requires forall i | 0 <= i < |b.advances| && i != a :: b4.advances[i] == b.advances[i]
    requires |b.allocs| <= |b4.allocs| && b4.allocs[..|b.allocs|] == b.allocs && RowsOf(b4.allocs[|b.allocs|..], a)
    requires IsLive(b.advances[a].state) && IsLive(b4.advances[a].state)
    requires b4.advances[a].outstanding == b.advances[a].outstanding && b4.advances[a].deferred == b.advances[a].deferred
    requires b4.advances[a].offer == b.advances[a].offer
    requires Tally(b4.allocs, OfAdvance(a, FeePart)) == Tally(b.allocs, OfAdvance(a, FeePart))
    ensures Total(b4, m) == Total(b, m)
  {
    hide Tally;
    forall i | 0 <= i < |b.advances| && i != a ensures Weight(b4, m, i) == Weight(b, m, i) {
      WeightElsewhere(b, b4, a, m, i);
    }
    TotalMoves(b, b4, a, m);
  }

  /** The recovery's effect on the money of its advance. */
  lemma BookedMoney(b: Book, cmd: IngestCmd, a: Id)
    requires a < |b.advances| && b.advances[a].pool.Some? && b.advances[a].pool.value < |b.pools|
    ensures var b3 := BookedRecovery(b, cmd, a);
            var adv, q := b.advances[a], b.pools[b.advances[a].pool.value];
            var applied := Min(cmd.payload.amount, adv.outstanding);
            && |b3.advances| == |b.advances|
            && (forall i | 0 <= i < |b.advances| && i != a :: b3.advances[i] == b.advances[i])
            && b3.advances[a] == adv.(outstanding := adv.outstanding - applied, version := adv.version + 1,
                                      state := if adv.outstanding == applied then Closed else PartiallyRecovered)
            && b3.pools == b.pools[adv.pool.value := q.(utilised := q.utilised - applied)]
  {
    hide WaterfallSplit, Rows, Lines, Seeded;
  }

  lemma SlotFree(b: Book, b3: Book, a: Id)
    requires OneActive(b) && a < |b.advances| == |b3.advances| && IsLive(b.advances[a].state)
    requires forall i | 0 <= i < |b.advances| && i != a :: b3.advances[i] == b.advances[i]
    ensures !SlotTaken(b3, a, b.advances[a].subscriber)
  {
    hide IsOpen;
    assert IsOpen(b.advances[a].state) by {
      LiveIsOpen(b.advances[a].state);
    }
  }

  // ------------------------------------------------------------------ the parking queue

  /** When a reversal is applied, the row waiting for the same original is closed with it. That row's own
      reversal is on record only if it is this one: a different reversal of the original closes a row that
      was never applied. */
  lemma ClosedRowApplied(b: Book, r: Id, e: Id, amount: int, feeFirst: bool, k: Id)
    requires Inv(b) && r !in b.reversals && k < |b.parked| && b.parked[k].original == e && b.parked[k].waiting
    requires Reverse(b, r, e, amount, feeFirst).Ok? && Reverse(b, r, e, amount, feeFirst).value.1.ReverseApplied?
    ensures var b2 := Reverse(b, r, e, amount, feeFirst).value.0;
            && k < |b2.parked| && !b2.parked[k].waiting && b2.parked[k].reversal == b.parked[k].reversal
            && (b.parked[k].reversal !in b.reversals ==>
                  (b2.parked[k].reversal in b2.reversals <==> b.parked[k].reversal == r))
  {
    hide Base, RowOk, Reverse, ApplyReversal, FindParked;
    BaseRows(b);
    ReverseThrough(b, r, e, amount, feeFirst);
    var res := ApplyReversal(b, e, amount, r, feeFirst);
    AppliedKeepsBase(b, e, amount, r, feeFirst);
    OnlyThisReversal(b, e, amount, r, feeFirst);
    FindParkedIs(res.value.parked, e);
    assert FindParked(res.value.parked, e) == Some(k);
  }

  /** What an answered first-time reversal went through. */
  lemma ReverseThrough(b: Book, r: Id, e: Id, amount: int, feeFirst: bool)
    requires Reverse(b, r, e, amount, feeFirst).Ok? && Reverse(b, r, e, amount, feeFirst).value.1.ReverseApplied?
    requires r !in b.reversals
    ensures amount > 0 && e in b.events && b.events[e].state.Allocated?
    ensures var res := ApplyReversal(b, e, amount, r, feeFirst);
            res.Ok? &&
            var found := FindParked(res.value.parked, e);
            && (found.Some? ==> found.value < |res.value.parked|)
            && Reverse(b, r, e, amount, feeFirst).value.0
               == if found.None? then res.value else MarkApplied(res.value, found.value)
  {
    hide ApplyReversal, FindParked;
  }

  lemma OnlyThisReversal(b: Book, e: Id, amount: int, r: Id, feeFirst: bool)
    requires Base(b) && e in b.events && b.events[e].state.Allocated? && amount > 0 && r !in b.reversals
    requires ApplyReversal(b, e, amount, r, feeFirst).Ok?
    ensures ApplyReversal(b, e, amount, r, feeFirst).value.reversals.Keys == b.reversals.Keys + {r}
  {
    ReversalOutcome(b, e, amount, r, feeFirst);
    if Claimable(b, e, amount, r) {
      ClaimableIsReversible(b, e, amount, r);
      ReversedFields(b, e, ReceivableAdvance(b.allocs, e).value, amount, r, feeFirst);
    }
    hide ApplyReversal, ReversedBook, Base, AdvanceOk, BackSplit, Rows, Lines, Seeded;
  }

  /** A recovery whose parked reversal asks for more than the advance still owes is refused, with its money:
      the shortest such run. */
  lemma ParkedReversalSinksIngest()
    ensures Fresh(ONE_POOL)
    ensures var b := Run(ONE_POOL, [CmdAccept(1, 7, OFFER, true), CmdResolve(0, OutcomeConfirmed), CmdReverse(4, 5, 60, true)]);
            Ingest(b, IngestCmd(5, Payload(50, "", 0), Some(1), true)).Err?
  {
    var c0, c1, c2 := CmdAccept(1, 7, OFFER, true), CmdResolve(0, OutcomeConfirmed), CmdReverse(4, 5, 60, true);
    OneAcceptedRuns();
    var b2 := ConfirmedOne();
    ParkedOne(b2);
    RunsKeepInv(ONE_POOL, [c0, c1, c2]);
    hide *;
    RunOf(ONE_POOL, [c0], c1);
    RunOf(ONE_POOL, [c0, c1], c2);
    assert [c0] + [c1] == [c0, c1] && [c0, c1] + [c2] == [c0, c1, c2];
    IngestOutcome(Step(b2, c2), IngestCmd(5, Payload(50, "", 0), Some(1), true));
  }

  lemma ConfirmedOne() returns (b: Book)
    ensures b == Step(OneAccepted(), CmdResolve(0, OutcomeConfirmed))
    ensures b.events == map[] && b.ingested == map[] && b.reversals == map[] && b.parked == []
    ensures |b.advances| == 1 && b.advances[0].subscriber == 1 && b.advances[0].state.Active? && b.advances[0].outstanding == 100
  {
    OneAcceptedRuns();
    RunsKeepInv(ONE_POOL, [CmdAccept(1, 7, OFFER, true)]);
    var b1 := OneAccepted();
    NotIssuedYet(b1, 0);
    ResolveGoesThrough(b1, 0, OutcomeConfirmed);
    StepIs(b1, 0);
    hide Step, Resolve, Inv, Run, Lines, Seeded, Core;
    b := ConfirmedBook(b1, 0);
  }

  lemma ParkedOne(b: Book)
    requires b.events == map[] && b.ingested == map[] && b.reversals == map[] && b.parked == []
    requires |b.advances| == 1 && b.advances[0].subscriber == 1 && b.advances[0].state.Active? && b.advances[0].outstanding == 100
    ensures IngestRefused(Step(b, CmdReverse(4, 5, 60, true)), IngestCmd(5, Payload(50, "", 0), Some(1), true))
  {
    var b2 := Park(b, Parked(5, 4, 60, true, OriginalUnseen));
    assert b2.parked == [Parked(5, 4, 60, true, OriginalUnseen)];
    FindParkedIs(b2.parked, 5);
    hide ApplyReversalGuarded, FindParked;
    assert Step(b, CmdReverse(4, 5, 60, true)) == b2;
    FindLiveIs(b2.advances, 1);
    hide FindLive;
    assert b2.parked[0].original == 5 && b2.parked[0].waiting && b2.parked[0].amount > 50;
  }
}
