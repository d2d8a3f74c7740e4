/** The standing invariant sweeps: each predicate says that a row offends, as the sweep's query does. */
module BookChecks {
  import opened BookInvariant
  import opened BookIngest
  import opened BookOrigination
  import opened BookReferences
  import opened BookReversal
  import opened BookRuns
  import opened BookSafety
  import opened BookSteps
  import opened BookTables
  import opened BookWriteOff
  import opened Common
  import opened Ledger
  import opened Templates

  // ------------------------------------------------------------------ the sweeps

  predicate MoneyBearing(s: AdvanceState) { s.Active? || s.PartiallyRecovered? || s.Closed? }

  ghost predicate Offends004(b: Book, j: Id) {
    j < |b.journals| && exists c: string :: Net(b.journals[j].lines, c) != 0
  }

  predicate Offends006(b: Book, a: Id) {
    a < |b.advances| && b.advances[a].outstanding < 0
  }

  predicate Offends001(b: Book, a: Id) {
    a < |b.advances| && MoneyBearing(b.advances[a].state) && b.advances[a].attempt != Some(Confirmed)
  }

  ghost predicate Offends001b(b: Book, a: Id) {
    a < |b.advances| && MoneyBearing(b.advances[a].state) && !KeyTaken(b.journals, IssuedKey(a))
  }

  predicate Offends013(b: Book, j: Id) {
    && j < |b.journals| && b.journals[j].key.IssuedKey?
    && var a := b.journals[j].key.advance;
       a < |b.advances| && !MoneyBearing(b.advances[a].state) && !b.advances[a].state.WrittenOff?
  }

  /** Everything allocated to an advance, whatever the component. */
  function Allocations(b: Book, a: Id): int {
    Tally(b.allocs, OfAdvance(a, FeePart)) + Tally(b.allocs, OfAdvance(a, PrincipalPart))
    + Tally(b.allocs, OfAdvance(a, WriteoffIncomePart))
  }

  predicate Offends014(b: Book, a: Id) {
    && a < |b.advances| && MoneyBearing(b.advances[a].state)
    && var o := b.advances[a].offer;
       b.advances[a].outstanding != (if o.feeAdded then o.face + o.fee else o.face) - Allocations(b, a)
  }

  predicate Offends002(b: Book, p: Id) {
    p < |b.pools| && !b.pools[p].Fits()
  }

  predicate Offends015(b: Book, p: Id) {
    p < |b.pools| && b.pools[p].utilised != Total(b, UtilisedOn(p))
  }

  predicate Offends016(b: Book) {
    AccountBalance(b.journals, SubscriberReceivable, CURRENCY) != Total(b, ReceivableOwed)
  }

  predicate Offends017(b: Book, e: Id) {
    && e in b.events
    && Tally(b.allocs, OfEvent(e, FeePart)) + Tally(b.allocs, OfEvent(e, PrincipalPart))
       + Tally(b.allocs, OfEvent(e, WriteoffIncomePart)) > b.events[e].amount
  }

  predicate Offends003(b: Book, i: Id, j: Id) {
    i < j < |b.journals| && b.journals[i].key == b.journals[j].key
  }

  predicate Offends018(b: Book) {
    AccountBalance(b.journals, UnearnedFee, CURRENCY) > 0
  }

  predicate Offends019(b: Book) {
    -AccountBalance(b.journals, UnearnedFee, CURRENCY) != Total(b, FeeUnearned)
  }

  /** No offender in any sweep but INV-001. */
  ghost predicate SweepsPass(b: Book) {
    && (forall j: Id :: !Offends004(b, j) && !Offends013(b, j))
    && (forall a: Id :: !Offends006(b, a) && !Offends001b(b, a) && !Offends014(b, a))
    && (forall p: Id :: !Offends002(b, p) && !Offends015(b, p))
    && (forall e: Id :: !Offends017(b, e))
    && (forall i: Id, j: Id :: !Offends003(b, i, j))
    && !Offends016(b) && !Offends018(b) && !Offends019(b)
  }

  lemma {:induction false} NoIncomeRows(b: Book, allocs: seq<Alloc>, a: Id)
    requires forall i | 0 <= i < |allocs| :: RowOk(b, allocs[i])
    requires a < |b.advances| && !b.advances[a].state.WrittenOff?
    ensures Tally(allocs, OfAdvance(a, WriteoffIncomePart)) == 0
  {
    if allocs != [] {
      assert RowOk(b, allocs[|allocs| - 1]);
      NoIncomeRows(b, allocs[..|allocs| - 1], a);
    }
  }

  lemma AdvanceSweeps(b: Book, a: Id)
    requires Inv(b)
    ensures !Offends006(b, a) && !Offends001b(b, a) && !Offends014(b, a)
  {
    if a < |b.advances| {
      assert AdvanceOk(b, a);
      BaseRows(b);
      if !b.advances[a].state.WrittenOff? {
        NoIncomeRows(b, b.allocs, a);
      }
      hide Tally;
    }
  }

  lemma UnearnedNotNegative(b: Book)
    requires Core(b)
    ensures Total(b, FeeUnearned) >= 0
  {
    if b.advances == [] {
      assert Column(b, FeeUnearned) == [];
    } else {
      WeightBounded(b, FeeUnearned, 0);
    }
  }

  lemma InvPassesSweeps(b: Book)
    requires Inv(b)
    ensures SweepsPass(b)
  {
    forall a: Id ensures !Offends006(b, a) && !Offends001b(b, a) && !Offends014(b, a) {
      AdvanceSweeps(b, a);
    }
    forall j: Id ensures !Offends004(b, j) && !Offends013(b, j) {
      if j < |b.journals| {
        assert KeyOk(b, b.journals[j].key);
      }
    }
    forall e: Id ensures !Offends017(b, e) {
      if e in b.events {
        assert EventOk(b, e);
      }
    }
    UnearnedNotNegative(b);
  }

  /** After any run, every sweep but INV-001 comes back empty. */
  lemma RunsPassSweeps(b: Book, cs: seq<Command>)
    requires Fresh(b)
    ensures SweepsPass(Run(b, cs))
  {
    RunsKeepInv(b, cs);
    InvPassesSweeps(Run(b, cs));
  }

  // ------------------------------------------------------------------ INV-001

  /** The attempt says what the advance's state lets its callers guess. */
  predicate AttemptAligned(adv: Advance) {
    && (IsPending(adv.state) ==> adv.attempt == Some(CurrentAttemptState(adv.state)))
    && (IsIssued(adv.state) ==> adv.attempt == Some(Confirmed))
    && (adv.state.FulfilmentFailed? ==> adv.attempt == Some(AttemptFailed))
  }

  predicate Aligned(b: Book) {
    forall a | 0 <= a < |b.advances| :: AttemptAligned(b.advances[a])
  }

  /** A confirmed outcome leaves an INV-001 offender exactly when the attempt was not in the state guessed
      from the advance: the guarded update then matches no row, and its "not found" is swallowed. */
  lemma ConfirmOffends(b: Book, a: Id)
    requires Inv(b) && a < |b.advances| && IsPending(b.advances[a].state)
    ensures Resolve(b, a, OutcomeConfirmed).Ok?
    ensures Offends001(Resolve(b, a, OutcomeConfirmed).value, a) <==>
              b.advances[a].attempt != Some(CurrentAttemptState(b.advances[a].state)) && b.advances[a].attempt != Some(Confirmed)
  {
    NotIssuedYet(b, a);
    ResolveGoesThrough(b, a, OutcomeConfirmed);
    hide Resolve, Inv, Lines, Seeded, Core;
  }

  /** Rescheduling breaks the alignment exactly when it hits an attempt still marked SENT. */
  lemma RescheduleAligned(b: Book, a: Id)
    requires Inv(b) && Aligned(b) && a < |b.advances|
    ensures Aligned(Reschedule(b, a).value) <==> b.advances[a].attempt != Some(Sent)
  {
    assert AdvanceOk(b, a);
    hide Inv, Tally;
    var b2 := Reschedule(b, a).value;
    if b.advances[a].attempt == Some(Sent) {
      assert AttemptAligned(b.advances[a]) && !AttemptAligned(b2.advances[a]);
    } else {
      assert b2 == b;
    }
  }

  /** A run that never reschedules an attempt still marked SENT. */
  ghost predicate NeverReschedulesSent(b: Book, cs: seq<Command>) {
    forall k | 0 <= k < |cs| && cs[k].CmdReschedule? ::
      var b1 := Run(b, cs[..k]);
      cs[k].advance < |b1.advances| ==> b1.advances[cs[k].advance].attempt != Some(Sent)
  }

  /** What a transaction other than a reschedule may do to one advance's state and attempt. */
  predicate AlignedStep(x: Advance, y: Advance) {
    || (y.state == x.state && y.attempt == x.attempt)
    || (IsIssued(x.state) && IsIssued(y.state) && y.attempt == x.attempt)
    || (IsPending(x.state) && y.state.Active? && y.attempt == AttemptAfter(x, Confirmed))
    || (IsPending(x.state) && y.state.FulfilmentFailed? && y.attempt == AttemptAfter(x, AttemptFailed))
    || (IsPending(x.state) && y.state.FulfilmentUnknown? && y.attempt == AttemptAfter(x, AttemptUnknown))
  }

  ghost predicate AlignedSteps(b: Book, b2: Book) {
    && |b.advances| <= |b2.advances|
    && (forall i | 0 <= i < |b.advances| :: AlignedStep(b.advances[i], b2.advances[i]))
    && (forall i | |b.advances| <= i < |b2.advances| :: b2.advances[i].state.PendingFulfilment? && b2.advances[i].attempt == Some(Sent))
  }

  lemma AlignedStepsKeep(b: Book, b2: Book)
    requires Aligned(b) && AlignedSteps(b, b2)
    ensures Aligned(b2)
  {
    forall i | 0 <= i < |b2.advances| ensures AttemptAligned(b2.advances[i]) {
      if i < |b.advances| {
        assert AttemptAligned(b.advances[i]) && AlignedStep(b.advances[i], b2.advances[i]);
      }
    }
  }

  lemma AcceptSteps(b: Book, subscriber: Id, programme: Id, offer: PricedOffer, deferred: bool)
    requires Inv(b) && Accept(b, subscriber, programme, offer, deferred).Ok?
    ensures AlignedSteps(b, Accept(b, subscriber, programme, offer, deferred).value)
  {
    hide Accept, Inv, SlotTaken, Core, Base;
    PoolsFit(b);
    AcceptGoesThrough(b, subscriber, programme, offer, deferred);
  }

  lemma ResolveSteps(b: Book, a: Id, outcome: Outcome)
    requires Inv(b) && Resolve(b, a, outcome).Ok?
    ensures AlignedSteps(b, Resolve(b, a, outcome).value)
  {
    if a < |b.advances| && IsPending(b.advances[a].state) {
      NotIssuedYet(b, a);
      ResolveGoesThrough(b, a, outcome);
      hide Resolve, Inv, Lines, Seeded, Core;
    }
  }

  lemma ReversalSteps(b: Book, e: Id, amount: int, r: Id, feeFirst: bool)
    requires Base(b) && e in b.events && b.events[e].state.Allocated? && amount > 0
    requires ApplyReversal(b, e, amount, r, feeFirst).Ok?
    ensures AlignedSteps(b, ApplyReversal(b, e, amount, r, feeFirst).value)
  {
    ReversalOutcome(b, e, amount, r, feeFirst);
    if Claimable(b, e, amount, r) {
      ClaimableIsReversible(b, e, amount, r);
      ReversedAttempt(b, e, ReceivableAdvance(b.allocs, e).value, amount, r, feeFirst);
    }
    hide ApplyReversal, ReversedBook, Base, Claimable, AdvanceOk;
  }

  lemma ReversedAttempt(b: Book, e: Id, a: Id, amount: int, r: Id, feeFirst: bool)
    requires a < |b.advances| && b.advances[a].pool.Some? && b.advances[a].pool.value < |b.pools| && e in b.events
    requires IsLive(b.advances[a].state) || b.advances[a].state.Closed?
    ensures AlignedSteps(b, ReversedBook(b, e, a, amount, r, feeFirst))
  {
    hide BackSplit, Rows, Lines, Seeded, NetApplied;
  }

  lemma TryParkedSteps(b: Book, k: Id, e: Id, feeFirst: bool)
    requires Base(b) && k < |b.parked| && e in b.events && b.events[e].state.Allocated?
    requires TryParked(b, k, e, feeFirst).Ok?
    ensures AlignedSteps(b, TryParked(b, k, e, feeFirst).value)
  {
    var p := b.parked[k];
    BaseRows(b);
    if ApplyReversal(b, e, p.amount, p.reversal, feeFirst).Ok? {
      ReversalSteps(b, e, p.amount, p.reversal, feeFirst);
    }
    hide ApplyReversal, Base, RowOk;
  }

  lemma ReverseSteps(b: Book, r: Id, e: Id, amount: int, feeFirst: bool)
    requires Inv(b) && Reverse(b, r, e, amount, feeFirst).Ok?
    ensures AlignedSteps(b, Reverse(b, r, e, amount, feeFirst).value.0)
  {
    hide Base;
    if e in b.events && b.events[e].state.Allocated? && amount > 0 && ApplyReversal(b, e, amount, r, feeFirst).Ok? {
      ReversalSteps(b, e, amount, r, feeFirst);
    }
    hide ApplyReversal;
  }

  lemma IngestSteps(b: Book, cmd: IngestCmd)
    requires Inv(b) && Ingest(b, cmd).Ok?
    ensures AlignedSteps(b, Ingest(b, cmd).value.0)
  {
    hide Base, Recover, FindLive, FindWrittenOff, Lines, Seeded, Accepted, KeyTaken;
    if cmd.source !in b.ingested && cmd.subscriber.Some? {
      FindLiveIs(b.advances, cmd.subscriber.value);
      var live := FindLive(b.advances, cmd.subscriber.value);
      if live.Some? {
        RecoverSteps(b, cmd, live.value);
      }
    }
  }

  lemma RecoverSteps(b: Book, cmd: IngestCmd, a: Id)
    requires Inv(b) && cmd.payload.amount > 0 && cmd.source !in b.events
    requires a < |b.advances| && IsLive(b.advances[a].state)
    requires Recover(WithEvent(b, cmd, Pending), cmd, a).Ok?
    ensures AlignedSteps(b, Recover(WithEvent(b, cmd, Pending), cmd, a).value.0)
  {
    FreshSource(b, cmd.source);
    assert AdvanceOk(b, a);
    RecoverParts(b, cmd, a);
    BookedKeepsBase(b, cmd, a);
    BookedAttempt(b, cmd, a);
    var b3 := BookedRecovery(b, cmd, a);
    WithEventKeys(b, cmd, Allocated);
    FindParkedIs(b3.parked, cmd.source);
    hide Base, Recover, BookedRecovery, TryParked, KeyTaken, AdvanceOk, Core;
    var found := FindParked(b3.parked, cmd.source);
    if found.Some? && TryParked(b3, found.value, cmd.source, cmd.feeFirst).Ok? {
      TryParkedSteps(b3, found.value, cmd.source, cmd.feeFirst);
      StepsCompose(b, b3, TryParked(b3, found.value, cmd.source, cmd.feeFirst).value, a);
    }
    hide FindParked;
  }

  lemma BookedAttempt(b: Book, cmd: IngestCmd, a: Id)
    requires a < |b.advances| && b.advances[a].pool.Some? && b.advances[a].pool.value < |b.pools| && IsLive(b.advances[a].state)
    ensures var b3 := BookedRecovery(b, cmd, a);
            AlignedSteps(b, b3) && |b3.advances| == |b.advances| && IsIssued(b3.advances[a].state)
            && forall i | 0 <= i < |b.advances| && i != a :: b3.advances[i] == b.advances[i]
  {
    hide WaterfallSplit, Rows, Lines, Seeded;
  }

  lemma StepsCompose(b: Book, b3: Book, b4: Book, a: Id)
    requires AlignedSteps(b, b3) && AlignedSteps(b3, b4) && |b3.advances| == |b.advances| && a < |b.advances|
    requires forall i | 0 <= i < |b.advances| && i != a :: b3.advances[i] == b.advances[i]
    requires IsIssued(b.advances[a].state) && IsIssued(b3.advances[a].state)
    ensures AlignedSteps(b, b4)
  {
    forall i | 0 <= i < |b.advances| ensures AlignedStep(b.advances[i], b4.advances[i]) {
      assert AlignedStep(b.advances[i], b3.advances[i]) && AlignedStep(b3.advances[i], b4.advances[i]);
    }
  }

  lemma ApproveSteps(b: Book, w: Id, actor: Id, disputed: bool)
    requires Inv(b) && ApproveWriteOff(b, w, actor, disputed).Ok?
    ensures AlignedSteps(b, ApproveWriteOff(b, w, actor, disputed).value)
  {
    ApproveOutcome(b, w, actor, disputed);
    NotPostedYet(b, w);
    ApproveParts(b, w, actor);
    ApprovedAttempt(b, w, actor);
    hide ApproveWriteOff, ApprovedBook, Inv, Core, KeyTaken;
  }

  lemma ApprovedAttempt(b: Book, w: Id, actor: Id)
    requires Approvable(b, w, actor, false)
    requires var adv := b.advances[b.writeOffs[w].advance]; adv.pool.Some? && adv.pool.value < |b.pools|
    ensures AlignedSteps(b, ApprovedBook(b, w, actor))
  {
    hide FeeRemaining, Lines, Seeded;
  }

  /** Every transaction but a reschedule keeps the alignment. */
  lemma OtherStepsAlign(b: Book, c: Command)
    requires Inv(b) && !c.CmdReschedule?
    ensures AlignedSteps(b, Step(b, c))
  {
    hide Inv, Accept, Resolve, Ingest, Reverse, RetryParked, RequestWriteOff, ApproveWriteOff, RejectWriteOff;
    if BookSteps.Attempt(b, c).Ok? {
      match c
      case CmdAccept(subscriber, programme, offer, deferred) => AcceptSteps(b, subscriber, programme, offer, deferred);
      case CmdResolve(a, outcome) => ResolveSteps(b, a, outcome);
      case CmdReschedule(a) =>
      case CmdIngest(cmd) => IngestSteps(b, cmd);
      case CmdReverse(r, e, amount, feeFirst) => ReverseSteps(b, r, e, amount, feeFirst);
      case CmdRetryParked(k, feeFirst) => RetrySteps(b, k, feeFirst);
      case CmdRequestWriteOff(a, actor, eligible) => QueueSteps(b, a, actor, eligible);
      case CmdApproveWriteOff(w, actor, disputed) => ApproveSteps(b, w, actor, disputed);
      case CmdRejectWriteOff(w, actor) => QueueSteps(b, w, actor, true);
    }
  }

  lemma RetrySteps(b: Book, k: Id, feeFirst: bool)
    requires Inv(b) && RetryParked(b, k, feeFirst).Ok?
    ensures AlignedSteps(b, RetryParked(b, k, feeFirst).value)
  {
    hide Base, TryParked;
    var e := b.parked[k].original;
    if e in b.events && b.events[e].state.Allocated? {
      TryParkedSteps(b, k, e, feeFirst);
    }
  }

  lemma QueueSteps(b: Book, x: Id, actor: Id, eligible: bool)
    ensures var r := RequestWriteOff(b, x, actor, eligible); r.Ok? ==> AlignedSteps(b, r.value)
    ensures var r := RejectWriteOff(b, x, actor); r.Ok? ==> AlignedSteps(b, r.value)
  {
    hide FeeRemaining, HasLiveWriteOff;
  }

  /** INV-001 holds throughout every run that never reschedules an attempt still marked SENT. */
  lemma {:induction false} RunsPassInv001(b: Book, cs: seq<Command>)
    requires Fresh(b) && NeverReschedulesSent(b, cs)
    ensures Aligned(Run(b, cs))
    ensures forall a: Id :: !Offends001(Run(b, cs), a)
  {
    if cs != [] {
      var n := |cs| - 1;
      var b1 := Run(b, cs[..n]);
      assert forall k | 0 <= k < n :: cs[..n][..k] == cs[..k];
      RunsPassInv001(b, cs[..n]);
      RunsKeepInv(b, cs[..n]);
      hide Inv, NeverReschedulesSent;
      if cs[n].CmdReschedule? {
        assert cs[n].advance < |b1.advances| ==> b1.advances[cs[n].advance].attempt != Some(Sent) by {
          SentAt(b, cs, n);
        }
        if cs[n].advance < |b1.advances| {
          RescheduleAligned(b1, cs[n].advance);
        }
      } else {
        OtherStepsAlign(b1, cs[n]);
        AlignedStepsKeep(b1, Step(b1, cs[n]));
      }
    }
  }

  lemma SentAt(b: Book, cs: seq<Command>, k: Id)
    requires NeverReschedulesSent(b, cs) && k < |cs| && cs[k].CmdReschedule?
    ensures var b1 := Run(b, cs[..k]);
            cs[k].advance < |b1.advances| ==> b1.advances[cs[k].advance].attempt != Some(Sent)
  {
  }

  // ------------------------------------------------------------------ INV-001 is false of some runs

  const ONE_POOL := Book([Pool(7, true, 1000, 0, 0)], [], map[], map[], [], map[], map[], [], [], [])
  const OFFER: PricedOffer := Offer(100, 10, 90, 100, false)

  /** One advance, accepted on the pool. */
  function OneAccepted(): Book {
    AcceptedBook(ONE_POOL, NewAdvance(1, 7, OFFER, true), 0)
  }

  lemma OneAcceptedRuns()
    ensures Fresh(ONE_POOL)
    ensures Run(ONE_POOL, [CmdAccept(1, 7, OFFER, true)]) == OneAccepted()
  {
    AcceptGoesThrough(ONE_POOL, 1, 7, OFFER, true);
    FirstWithHeadroom(ONE_POOL.pools, 7, 100);
    var c := CmdAccept(1, 7, OFFER, true);
    assert [c][..0] == [];
    hide Accept;
    assert HasHeadroom(ONE_POOL.pools[0], 7, 100);
    assert Run(ONE_POOL, []) == ONE_POOL;
    assert Run(ONE_POOL, [c]) == Step(ONE_POOL, c);
  }

  /** The crash-recovery path itself: the confirm's second transaction is lost, the first enquiry still says
      unknown, the next one says confirmed. The advance is ACTIVE and its attempt is not CONFIRMED. */
  lemma UnknownThenConfirmedOffends()
    ensures Fresh(ONE_POOL)
    ensures Offends001(Run(ONE_POOL, [CmdAccept(1, 7, OFFER, true), CmdReschedule(0), CmdResolve(0, OutcomeConfirmed)]), 0)
  {
    var c0, c1, c2 := CmdAccept(1, 7, OFFER, true), CmdReschedule(0), CmdResolve(0, OutcomeConfirmed);
    OneAcceptedRuns();
    Rescheduled();
    hide *;
    RunsKeepInv(ONE_POOL, [c0, c1]);
    RunOf(ONE_POOL, [c0], c1);
    RunOf(ONE_POOL, [c0, c1], c2);
    var b2 := Step(OneAccepted(), c1);
    assert [c0] + [c1] == [c0, c1] && [c0, c1] + [c2] == [c0, c1, c2];
    ConfirmOffends(b2, 0);
    StepIs(b2, 0);
  }

  lemma Rescheduled()
    ensures var b2 := Step(OneAccepted(), CmdReschedule(0));
            && |b2.advances| == 1 && b2.advances[0].state.PendingFulfilment? && IsPending(b2.advances[0].state)
            && b2.advances[0].attempt == Some(AttemptUnknown) && CurrentAttemptState(b2.advances[0].state) == Sent
  {
  }

  lemma StepIs(b: Book, a: Id)
    requires Resolve(b, a, OutcomeConfirmed).Ok?
    ensures Step(b, CmdResolve(a, OutcomeConfirmed)) == Resolve(b, a, OutcomeConfirmed).value
  {
    hide Resolve;
  }

  lemma RunOf(b: Book, cs: seq<Command>, c: Command)
    ensures Run(b, cs + [c]) == Step(Run(b, cs), c)
  {
    hide Step;
    assert (cs + [c])[..|cs|] == cs;
  }
}
