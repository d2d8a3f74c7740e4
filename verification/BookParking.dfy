/** A run in which a parked reversal is closed unapplied: another reversal of the same recovery goes through
    and takes the waiting row with it. From then on only the telco's own resend applies it. */
module BookParking {
  import opened BookAnswers
  import opened BookChecks
  import opened BookIngest
  import opened BookInvariant
  import opened BookMoney
  import opened BookOrigination
  import opened BookQueue
  import opened BookReferences
  import opened BookReversal
  import opened BookRuns
  import opened BookSafety
  import opened BookSteps
  import opened BookTables
  import opened Common
  import opened Ledger
  import opened Templates

  /** A pool that the first advance exhausts. */
  const SMALL_POOL := Book([Pool(7, true, 100, 0, 0)], [], map[], map[], [], map[], map[], [], [], [])
  const SMALL_OFFER: PricedOffer := Offer(30, 3, 27, 30, false)
  const HALF := IngestCmd(5, Payload(50, "", 0), Some(1), true)

  /** The first advance is issued, half of it recovered, and most of what that freed lent to a second
      subscriber: a reversal of 30 finds no headroom and parks, a reversal of 10 goes through. */
  const ISSUE: seq<Command> := [CmdAccept(1, 7, OFFER, true), CmdResolve(0, OutcomeConfirmed)]
  const LEND: seq<Command> := ISSUE + [CmdIngest(HALF)] + [CmdAccept(2, 7, SMALL_OFFER, true)]
  const PARK: seq<Command> := LEND + [CmdReverse(20, 5, 30, true)]
  const CLOSE: seq<Command> := PARK + [CmdReverse(21, 5, 10, true)]

  ghost predicate Issued(b: Book) {
    && b.pools == [Pool(7, true, 100, 0, 100)] && b.events == map[] && b.ingested == map[] && b.reversals == map[] && b.parked == []
    && |b.advances| == 1 && b.advances[0].subscriber == 1 && b.advances[0].state.Active?
    && b.advances[0].outstanding == 100 && b.advances[0].pool == Some(0)
  }

  /** The recovery of 50 is on the first advance. */
  ghost predicate Recovered50(b: Book) {
    && 5 in b.events && b.events[5].state.Allocated? && b.reversals == map[]
    && NetApplied(b, 5) == 50 && ReceivableAdvance(b.allocs, 5) == Some(0)
    && |b.advances| >= 1 && b.advances[0].subscriber == 1 && b.advances[0].state.PartiallyRecovered? && b.advances[0].pool == Some(0)
  }

  /** The second advance holds its reservation, its outcome still unknown. */
  ghost predicate Lent(b: Book) {
    && |b.advances| == 2 && b.advances[1].state.PendingFulfilment? && b.advances[1].pool == Some(0)
    && b.advances[1].outstanding == 30
  }

  lemma IssueRuns()
    ensures Fresh(SMALL_POOL) && Issued(Run(SMALL_POOL, ISSUE))
  {
    var c0, c1 := CmdAccept(1, 7, OFFER, true), CmdResolve(0, OutcomeConfirmed);
    FirstAccepted();
    var b1 := AcceptedBook(SMALL_POOL, NewAdvance(1, 7, OFFER, true), 0);
    RunsKeepInv(SMALL_POOL, [c0]);
    FirstConfirmed(b1);
    hide *;
    StepIs(b1, 0);
    RunOf(SMALL_POOL, [c0], c1);
    IssueCommands();
  }

  lemma IssueCommands()
    ensures [CmdAccept(1, 7, OFFER, true)] + [CmdResolve(0, OutcomeConfirmed)] == ISSUE
  {
  }

  lemma FirstConfirmed(b: Book)
    requires b == AcceptedBook(SMALL_POOL, NewAdvance(1, 7, OFFER, true), 0) && Inv(b)
    ensures Resolve(b, 0, OutcomeConfirmed).Ok? && Issued(Resolve(b, 0, OutcomeConfirmed).value)
  {
    NotIssuedYet(b, 0);
    ResolveGoesThrough(b, 0, OutcomeConfirmed);
    hide Resolve, Inv, Core, Lines;
    assert Issued(ConfirmedBook(b, 0));
  }

  lemma FirstAccepted()
    ensures Fresh(SMALL_POOL)
    ensures Run(SMALL_POOL, [CmdAccept(1, 7, OFFER, true)]) == AcceptedBook(SMALL_POOL, NewAdvance(1, 7, OFFER, true), 0)
  {
    AcceptGoesThrough(SMALL_POOL, 1, 7, OFFER, true);
    FirstWithHeadroom(SMALL_POOL.pools, 7, 100);
    var c := CmdAccept(1, 7, OFFER, true);
    assert [c][..0] == [];
    hide Accept;
    assert HasHeadroom(SMALL_POOL.pools[0], 7, 100);
    assert Run(SMALL_POOL, []) == SMALL_POOL;
    assert Run(SMALL_POOL, [c]) == Step(SMALL_POOL, c);
  }

  lemma HalfRecovered(b: Book)
    requires Inv(b) && Issued(b)
    ensures var b2 := Step(b, CmdIngest(HALF));
            Recovered50(b2) && b2.pools == [Pool(7, true, 100, 0, 50)] && |b2.advances| == 1 && b2.parked == []
  {
    var b3 := BookedHalf(b);
    BookedOnFirst(b);
    hide *;
    HalfSteps(b, b3);
    HalfFacts(b, b3);
  }

  lemma BookedHalf(b: Book) returns (b3: Book)
    requires Inv(b) && Issued(b)
    ensures b.advances[0].pool.Some? && b.advances[0].pool.value < |b.pools| && b3 == BookedRecovery(b, HALF, 0)
    ensures ClassifyAndApply(b, HALF) == Ok((b3, IngestResult(Allocated, 50, 0, false)))
    ensures b3.ingested == map[]
  {
    FreshSource(b, 5);
    BaseParts(b);
    hide Base, Core, KeyTaken, BookedRecovery;
    RecoverParts(b, HALF, 0);
    BookedKeepsBase(b, HALF, 0);
    b3 := BookedRecovery(b, HALF, 0);
    FindLiveIs(b.advances, 1);
    hide Recover, FindLive;
    assert FindParked(b3.parked, 5) == None;
    assert WithEvent(b, HALF, Pending).advances == b.advances;
  }

  lemma BookedOnFirst(b: Book)
    requires Inv(b) && Issued(b)
    ensures var b3 := BookedRecovery(b, HALF, 0);
            Recovered50(b3) && b3.pools == [Pool(7, true, 100, 0, 50)] && |b3.advances| == 1 && b3.parked == []
  {
    BaseFacts(b, 0);
    BookedClaimable(b, HALF, 0, 20);
    BookedKeepsBase(b, HALF, 0);
    BookedMoney(b, HALF, 0);
    hide Base, BookedRecovery, NetApplied, AdvanceOk;
  }

  lemma HalfSteps(b: Book, b3: Book)
    requires Issued(b) && ClassifyAndApply(b, HALF) == Ok((b3, IngestResult(Allocated, 50, 0, false)))
    ensures Step(b, CmdIngest(HALF)) == b3.(ingested := b3.ingested[5 := Ingested(HALF.payload, IngestResult(Allocated, 50, 0, false))])
  {
    hide ClassifyAndApply;
  }

  lemma HalfFacts(b: Book, b3: Book)
    requires Recovered50(b3)
    ensures forall m :: Recovered50(b3.(ingested := m))
  {
    hide Tally;
  }

  lemma LentAgain(b: Book)
    requires Recovered50(b) && b.pools == [Pool(7, true, 100, 0, 50)] && |b.advances| == 1 && b.parked == []
    ensures var b2 := Step(b, CmdAccept(2, 7, SMALL_OFFER, true));
            Recovered50(b2) && Lent(b2) && b2.pools == [Pool(7, true, 100, 30, 50)] && b2.parked == []
  {
    LendStep(b);
    hide Step, Tally, ReceivableAdvance;
    var b2 := AcceptedBook(b, NewAdvance(2, 7, SMALL_OFFER, true), 0);
    assert b2.allocs == b.allocs;
  }

  lemma LendStep(b: Book)
    requires Recovered50(b) && b.pools == [Pool(7, true, 100, 0, 50)] && |b.advances| == 1
    ensures Step(b, CmdAccept(2, 7, SMALL_OFFER, true)) == AcceptedBook(b, NewAdvance(2, 7, SMALL_OFFER, true), 0)
  {
    hide Accept, NetApplied, ReceivableAdvance, PoolWithHeadroom;
    AcceptGoesThrough(b, 2, 7, SMALL_OFFER, true);
    FirstWithHeadroom(b.pools, 7, 30);
    assert HasHeadroom(b.pools[0], 7, 30);
    assert !SlotTaken(b, 1, 2);
  }

  lemma ClaimableHere(b: Book, amount: int, r: Id)
    requires Recovered50(b) && 0 < amount <= 50
    ensures Claimable(b, 5, amount, r) && !b.advances[0].state.Closed? && 0 < |b.advances|
  {
    hide NetApplied, ReceivableAdvance;
  }

  lemma NoHeadroom(b: Book)
    requires Base(b) && Recovered50(b) && b.pools == [Pool(7, true, 100, 30, 50)]
    ensures ApplyReversal(b, 5, 30, 20, true) == Err(PoolOverAllocated)
  {
    hide NetApplied, ReceivableAdvance, ApplyReversal, ReversedBook, Base, Claimable, SlotTaken, AdvanceOk;
    ReversalOutcome(b, 5, 30, 20, true);
    ClaimableHere(b, 30, 20);
  }

  lemma ParksOnHeadroom(b: Book)
    requires Base(b) && Recovered50(b) && b.pools == [Pool(7, true, 100, 30, 50)] && b.parked == []
    ensures Step(b, CmdReverse(20, 5, 30, true)) == b.(parked := [Parked(5, 20, 30, true, PoolHeadroom)])
  {
    hide NetApplied, ReceivableAdvance, ApplyReversal, Base, Reverse, Step;
    NoHeadroom(b);
    CollisionParks(b, 20, 5, 30, true);
    ReverseStep(b, 20, 5, 30, true);
  }

  lemma CollisionParks(b: Book, r: Id, e: Id, amount: int, feeFirst: bool)
    requires amount > 0 && r !in b.reversals && e in b.events && b.events[e].state.Allocated?
    requires ApplyReversal(b, e, amount, r, feeFirst) == Err(PoolOverAllocated) && !ParkConflict(b.parked, e, r)
    ensures Reverse(b, r, e, amount, feeFirst) == Ok((b.(parked := b.parked + [Parked(e, r, amount, true, PoolHeadroom)]), ReverseParked))
  {
    hide ApplyReversal, ParkConflict, FindParked;
  }

  lemma ReverseStep(b: Book, r: Id, e: Id, amount: int, feeFirst: bool)
    requires Reverse(b, r, e, amount, feeFirst).Ok?
    ensures Step(b, CmdReverse(r, e, amount, feeFirst)) == Reverse(b, r, e, amount, feeFirst).value.0
  {
    hide Reverse;
  }

  lemma EnoughHeadroom(b: Book)
    requires Base(b) && Recovered50(b) && b.pools == [Pool(7, true, 100, 30, 50)]
    ensures b.advances[0].pool.Some? && b.advances[0].pool.value < |b.pools|
    ensures ApplyReversal(b, 5, 10, 21, true) == Ok(ReversedBook(b, 5, 0, 10, 21, true))
  {
    hide NetApplied, ReceivableAdvance, ApplyReversal, ReversedBook, Base, Claimable, SlotTaken, AdvanceOk;
    ReversalOutcome(b, 5, 10, 21, true);
    ClaimableHere(b, 10, 21);
  }

  lemma SmallerGoesThrough(b: Book)
    requires Base(b) && Recovered50(b) && b.pools == [Pool(7, true, 100, 30, 50)]
    requires b.parked == [Parked(5, 20, 30, true, PoolHeadroom)]
    ensures b.advances[0].pool.Some? && b.advances[0].pool.value < |b.pools|
    ensures var b2, res := ReversedBook(b, 5, 0, 10, 21, true), Reverse(b, 21, 5, 10, true);
            && |b2.parked| == 1 && b2.reversals.Keys == {21}
            && res.Ok? && res.value.1.ReverseApplied? && res.value.0 == MarkApplied(b2, 0)
            && Step(b, CmdReverse(21, 5, 10, true)) == MarkApplied(b2, 0)
  {
    hide ApplyReversal, NetApplied, ReceivableAdvance, Base, ReversedBook, FindParked, Reverse, BackSplit, Rows, Step;
    EnoughHeadroom(b);
    ReversedFields(b, 5, 0, 10, 21, true);
    ReversedQueue(b);
    var b2 := ReversedBook(b, 5, 0, 10, 21, true);
    FindParkedIs(b2.parked, 5);
    assert b2.parked[0].original == 5 && b2.parked[0].waiting;
    AppliedCloses(b, 21, 5, 10, true, b2, 0);
    ReverseStep(b, 21, 5, 10, true);
  }

  lemma AppliedCloses(b: Book, r: Id, e: Id, amount: int, feeFirst: bool, b2: Book, k: Id)
    requires amount > 0 && r !in b.reversals && e in b.events && b.events[e].state.Allocated?
    requires ApplyReversal(b, e, amount, r, feeFirst) == Ok(b2) && r in b2.reversals
    requires FindParked(b2.parked, e) == Some(k) && k < |b2.parked|
    ensures Reverse(b, r, e, amount, feeFirst) == Ok((MarkApplied(b2, k), ReverseApplied(amount, b2.reversals[r].reopened)))
  {
    hide ApplyReversal, FindParked, MarkApplied;
  }

  lemma ReversedQueue(b: Book)
    requires Recovered50(b) && b.advances[0].pool.value < |b.pools|
    ensures ReversedBook(b, 5, 0, 10, 21, true).parked == b.parked
  {
    hide BackSplit, Rows, Lines, NetApplied;
  }

  /** The reversal of 30 waited for headroom and was never applied, yet its row is closed, so no operator retry
      applies it. */
  lemma ClosedUnapplied()
    ensures Fresh(SMALL_POOL)
    ensures Run(SMALL_POOL, PARK).parked == [Parked(5, 20, 30, true, PoolHeadroom)]
    ensures var b := Run(SMALL_POOL, CLOSE);
            && |b.parked| == 1 && b.parked[0].reversal == 20 && !b.parked[0].waiting
            && 20 !in b.reversals && 21 in b.reversals
            && RetryParked(b, 0, true) == Err(NotFound)
  {
    hide *;
    CommandsInOrder();
    LendRuns();
    RunsKeepInv(SMALL_POOL, LEND);
    InvParts(Run(SMALL_POOL, LEND));
    ParksOnHeadroom(Run(SMALL_POOL, LEND));
    RunOf(SMALL_POOL, LEND, CmdReverse(20, 5, 30, true));
    RunsKeepInv(SMALL_POOL, PARK);
    RunOf(SMALL_POOL, PARK, CmdReverse(21, 5, 10, true));
    StillRecovered(Run(SMALL_POOL, LEND));
    LastReversal(Run(SMALL_POOL, PARK));
  }

  lemma CommandsInOrder()
    ensures LEND == ISSUE + [CmdIngest(HALF)] + [CmdAccept(2, 7, SMALL_OFFER, true)]
    ensures PARK == LEND + [CmdReverse(20, 5, 30, true)] && CLOSE == PARK + [CmdReverse(21, 5, 10, true)]
  {
  }

  lemma LendRuns()
    ensures Fresh(SMALL_POOL)
    ensures var b := Run(SMALL_POOL, LEND);
            Recovered50(b) && Lent(b) && b.pools == [Pool(7, true, 100, 30, 50)] && b.parked == []
  {
    hide *;
    CommandsInOrder();
    IssueRuns();
    RunsKeepInv(SMALL_POOL, ISSUE);
    HalfRecovered(Run(SMALL_POOL, ISSUE));
    RunOf(SMALL_POOL, ISSUE, CmdIngest(HALF));
    LentAgain(Run(SMALL_POOL, ISSUE + [CmdIngest(HALF)]));
    RunOf(SMALL_POOL, ISSUE + [CmdIngest(HALF)], CmdAccept(2, 7, SMALL_OFFER, true));
  }

  lemma InvParts(b: Book)
    requires Inv(b)
    ensures Base(b)
  {
    hide Base;
  }

  lemma StillRecovered(b: Book)
    requires Recovered50(b)
    ensures forall ps :: Recovered50(b.(parked := ps))
  {
    hide Tally;
  }

  lemma LastReversal(b: Book)
    requires Inv(b) && Recovered50(b) && b.pools == [Pool(7, true, 100, 30, 50)]
    requires b.parked == [Parked(5, 20, 30, true, PoolHeadroom)]
    ensures var z := Step(b, CmdReverse(21, 5, 10, true));
            && |z.parked| == 1 && z.parked[0].reversal == 20 && !z.parked[0].waiting
            && 20 !in z.reversals && 21 in z.reversals && RetryParked(z, 0, true) == Err(NotFound)
  {
    hide Reverse, Step, Base, NetApplied, ReceivableAdvance;
    SmallerGoesThrough(b);
    ClosedRowApplied(b, 21, 5, 10, true, 0);
  }

  // ------------------------------------------------------------------ what still applies it

  /** Whatever follows, short of the telco sending reversal 20 again, it is never applied. */
  lemma NothingElseApplies(cs: seq<Command>)
    requires SendsNo(cs, 20)
    ensures 20 !in Run(Run(SMALL_POOL, CLOSE), cs).reversals
  {
    ClosedUnapplied();
    RunsKeepInv(SMALL_POOL, CLOSE);
    hide Run, Inv, SendsNo, RetryParked;
    OnlyResendApplies(Run(SMALL_POOL, CLOSE), cs, 20);
  }

  /** The book once the row is closed: 40 of the recovery is still applied. */
  ghost predicate Closing(b: Book) {
    && 5 in b.events && b.events[5].state.Allocated? && b.reversals.Keys == {21}
    && NetApplied(b, 5) == 40 && ReceivableAdvance(b.allocs, 5) == Some(0) && Lent(b)
    && b.advances[0].subscriber == 1 && b.advances[0].state.PartiallyRecovered? && b.advances[0].pool == Some(0)
    && b.parked == [Parked(5, 20, 30, false, PoolHeadroom)]
  }

  lemma NetAfterReversal(b: Book)
    requires Base(b) && Recovered50(b)
    ensures b.advances[0].pool.Some? && b.advances[0].pool.value < |b.pools|
    ensures NetApplied(ReversedBook(b, 5, 0, 10, 21, true), 5) == 40
  {
    hide *;
    FirstFacts(b);
    ClaimableHere(b, 10, 21);
    ClaimableIsReversible(b, 5, 10, 21);
    PoolOfOk(b, 0);
    SplitOfReversal(b, 5, 0, 10, true);
    ReversedFields(b, 5, 0, 10, 21, true);
    var s := BackSplit(b, 5, 10, true);
    EventsAfterReversal(b, 5, 0, Split(-s.fee, -s.principal), false, 5, FeePart);
    EventsAfterReversal(b, 5, 0, Split(-s.fee, -s.principal), false, 5, PrincipalPart);
    NetAppliedIs(b, 5);
    NetAppliedIs(ReversedBook(b, 5, 0, 10, 21, true), 5);
  }

  lemma FirstFacts(b: Book)
    requires Recovered50(b)
    ensures ReceivableAdvance(b.allocs, 5) == Some(0) && NetApplied(b, 5) == 50
    ensures 5 in b.events && b.events[5].state.Allocated?
    ensures |b.advances| >= 1 && b.advances[0].pool == Some(0)
  {
    hide NetApplied, ReceivableAdvance;
  }

  /** More rows leave the event with its advance. */
  lemma SameAdvance(allocs: seq<Alloc>, more: seq<Alloc>, e: Id, a: Id)
    requires OneAdvancePerEvent(allocs) && OneAdvancePerEvent(allocs + more) && ReceivableAdvance(allocs, e) == Some(a)
    requires Tally(allocs + more, OfEvent(e, FeePart)) + Tally(allocs + more, OfEvent(e, PrincipalPart)) != 0
    ensures ReceivableAdvance(allocs + more, e) == Some(a)
  {
    hide ReceivableAdvance, Tally, OneAdvancePerEvent;
    ReceivableAdvanceIs(allocs, e);
    ReceivableAdvanceIs(allocs + more, e);
    var i :| 0 <= i < |allocs| && allocs[i].event == e && !allocs[i].component.WriteoffIncomePart?;
    assert (allocs + more)[i] == allocs[i];
  }

  lemma AdvanceAfterReversal(b: Book, b2: Book, rows: seq<Alloc>)
    requires Base(b) && Recovered50(b) && Base(b2) && b2.allocs == b.allocs + rows && NetApplied(b2, 5) != 0
    ensures ReceivableAdvance(b2.allocs, 5) == Some(0)
  {
    hide *;
    BaseRows(b);
    BaseRows(b2);
    FirstFacts(b);
    NetAppliedIs(b2, 5);
    SameAdvance(b.allocs, rows, 5, 0);
  }

  /** Everything about the closed book but its sums. */
  lemma ClosedFields(b: Book)
    requires Base(b) && Recovered50(b) && Lent(b) && b.pools == [Pool(7, true, 100, 30, 50)]
    requires b.parked == [Parked(5, 20, 30, true, PoolHeadroom)]
    ensures b.advances[0].pool.Some? && b.advances[0].pool.value < |b.pools|
    ensures var b2, z := ReversedBook(b, 5, 0, 10, 21, true), Step(b, CmdReverse(21, 5, 10, true));
            var s := BackSplit(b, 5, 10, true);
            && z.allocs == b2.allocs == b.allocs + Rows(5, 0, Split(-s.fee, -s.principal), false)
            && z.reversals.Keys == {21} && z.parked == [Parked(5, 20, 30, false, PoolHeadroom)]
            && z.pools == [Pool(7, true, 100, 30, 60)] && Lent(z)
            && z.advances[0].subscriber == 1 && z.advances[0].state.PartiallyRecovered? && z.advances[0].pool == Some(0)
            && (10 != NetApplied(b, 5) ==> z.events == b.events)
  {
    hide NetApplied, ReceivableAdvance, Base, ReversedBook, BackSplit, Rows, Step, Reverse, ApplyReversal, FindParked, Amounts;
    SmallerGoesThrough(b);
    ReversedFields(b, 5, 0, 10, 21, true);
    ReversedQueue(b);
  }

  lemma ClosedBook(b: Book)
    requires Inv(b) && Recovered50(b) && Lent(b) && b.pools == [Pool(7, true, 100, 30, 50)]
    requires b.parked == [Parked(5, 20, 30, true, PoolHeadroom)]
    requires Inv(Step(b, CmdReverse(21, 5, 10, true)))
    ensures var z := Step(b, CmdReverse(21, 5, 10, true)); Closing(z) && z.pools == [Pool(7, true, 100, 30, 60)]
  {
    hide *;
    var z := Step(b, CmdReverse(21, 5, 10, true));
    InvParts(b);
    InvParts(z);
    FirstFacts(b);
    ClosedFields(b);
    NetAfterReversal(b);
    SameNet(ReversedBook(b, 5, 0, 10, 21, true), z);
    var s := BackSplit(b, 5, 10, true);
    AdvanceAfterReversal(b, z, Rows(5, 0, Split(-s.fee, -s.principal), false));
    ClosingIs(z);
  }

  lemma ClosingIs(b: Book)
    requires 5 in b.events && b.events[5].state.Allocated? && b.reversals.Keys == {21}
    requires NetApplied(b, 5) == 40 && ReceivableAdvance(b.allocs, 5) == Some(0) && Lent(b)
    requires b.advances[0].subscriber == 1 && b.advances[0].state.PartiallyRecovered? && b.advances[0].pool == Some(0)
    requires b.parked == [Parked(5, 20, 30, false, PoolHeadroom)]
    ensures Closing(b)
  {
    hide NetApplied, ReceivableAdvance;
  }

  lemma SameNet(b: Book, z: Book)
    requires z.allocs == b.allocs
    ensures NetApplied(z, 5) == NetApplied(b, 5)
  {
    hide Tally;
  }

  /** The second advance fails and gives its reservation back. */
  lemma HeadroomReturns(b: Book)
    requires Inv(b) && Closing(b) && b.pools == [Pool(7, true, 100, 30, 60)]
    ensures Step(b, CmdResolve(1, OutcomeFailed)) == FailedBook(b, 1)
  {
    hide NetApplied, ReceivableAdvance, Inv, Resolve, Core, FailedBook, AdvanceOk;
    InvAdvance(b, 1);
    NotIssuedHere(b, 1);
    ResolveGoesThrough(b, 1, OutcomeFailed);
  }

  lemma FailedFacts(b: Book)
    requires Closing(b) && b.pools == [Pool(7, true, 100, 30, 60)]
    ensures var z := FailedBook(b, 1);
            && Claimable(z, 5, 30, 20) && ReceivableAdvance(z.allocs, 5) == Some(0) && z.parked == b.parked
            && z.pools == [Pool(7, true, 100, 0, 60)] && 0 < |z.advances| && z.advances[0] == b.advances[0]
  {
    SameNet(b, FailedBook(b, 1));
    hide NetApplied, ReceivableAdvance;
  }

  const FREED: seq<Command> := CLOSE + [CmdResolve(1, OutcomeFailed)]
  const RESEND: seq<Command> := FREED + [CmdReverse(20, 5, 30, true)]

  lemma ResendCommands()
    ensures PARK + [CmdReverse(21, 5, 10, true)] == CLOSE
    ensures FREED == CLOSE + [CmdResolve(1, OutcomeFailed)] && RESEND == FREED + [CmdReverse(20, 5, 30, true)]
  {
  }

  lemma ParkRuns()
    ensures Fresh(SMALL_POOL)
    ensures var b := Run(SMALL_POOL, PARK);
            && Recovered50(b) && Lent(b) && b.pools == [Pool(7, true, 100, 30, 50)]
            && b.parked == [Parked(5, 20, 30, true, PoolHeadroom)]
  {
    hide *;
    CommandsInOrder();
    LendRuns();
    RunsKeepInv(SMALL_POOL, LEND);
    InvParts(Run(SMALL_POOL, LEND));
    ParksOnHeadroom(Run(SMALL_POOL, LEND));
    RunOf(SMALL_POOL, LEND, CmdReverse(20, 5, 30, true));
    StillRecovered(Run(SMALL_POOL, LEND));
    StillLent(Run(SMALL_POOL, LEND));
  }

  lemma StillLent(b: Book)
    requires Lent(b)
    ensures forall ps :: Lent(b.(parked := ps))
  {
  }

  /** Sent again at once reversal 20 is refused for want of headroom; sent again after the second advance gave its
      reservation back, it is applied. */
  lemma ResendApplies()
    ensures Reverse(Run(SMALL_POOL, CLOSE), 20, 5, 30, true) == Err(NotFound)
    ensures 20 in Run(SMALL_POOL, RESEND).reversals
  {
    hide *;
    ResendCommands();
    ParkRuns();
    RunOf(SMALL_POOL, PARK, CmdReverse(21, 5, 10, true));
    RunOf(SMALL_POOL, CLOSE, CmdResolve(1, OutcomeFailed));
    RunOf(SMALL_POOL, FREED, CmdReverse(20, 5, 30, true));
    RunsKeepInv(SMALL_POOL, PARK);
    RunsKeepInv(SMALL_POOL, CLOSE);
    RunsKeepInv(SMALL_POOL, FREED);
    ClosedBook(Run(SMALL_POOL, PARK));
    HeadroomReturns(Run(SMALL_POOL, CLOSE));
    RefusedAtOnce(Run(SMALL_POOL, CLOSE));
    FailedFacts(Run(SMALL_POOL, CLOSE));
    FailedKeepsFirst(Run(SMALL_POOL, CLOSE));
    AppliedNow(Run(SMALL_POOL, FREED));
  }

  lemma FailedKeepsFirst(b: Book)
    requires Closing(b)
    ensures b.advances[0].state.PartiallyRecovered? && b.advances[0].pool == Some(0)
    ensures b.parked == [Parked(5, 20, 30, false, PoolHeadroom)]
  {
    hide NetApplied, ReceivableAdvance;
  }

  lemma RefusedAtOnce(b: Book)
    requires Inv(b) && Closing(b) && b.pools == [Pool(7, true, 100, 30, 60)]
    ensures Reverse(b, 20, 5, 30, true) == Err(NotFound)
  {
    hide NetApplied, ReceivableAdvance, Inv, Reverse, SlotTaken, AdvanceOk;
    assert Claimable(b, 5, 30, 20);
    ResendAppliesIff(b, 20, 5, 30, true, 0);
  }

  lemma AppliedNow(b: Book)
    requires Inv(b) && Claimable(b, 5, 30, 20) && ReceivableAdvance(b.allocs, 5) == Some(0)
    requires b.pools == [Pool(7, true, 100, 0, 60)] && b.parked == [Parked(5, 20, 30, false, PoolHeadroom)]
    requires 0 < |b.advances| && b.advances[0].state.PartiallyRecovered? && b.advances[0].pool == Some(0)
    ensures 20 in Step(b, CmdReverse(20, 5, 30, true)).reversals
  {
    hide NetApplied, ReceivableAdvance, Inv, Reverse, SlotTaken, AdvanceOk, Claimable, Step;
    ResendAppliesIff(b, 20, 5, 30, true, 0);
    ReverseStep(b, 20, 5, 30, true);
  }
}
