/** Every transaction keeps the book, hence every run does; and exactly when the transactions fail. */
module BookSafety {
  import opened BookIngest
  import opened BookInvariant
  import opened BookMoney
  import opened BookOrigination
  import opened BookReferences
  import opened BookReversal
  import opened BookSteps
  import opened BookTables
  import opened Common
  import opened Ledger
  import opened Seqs
  import opened Templates

  // ------------------------------------------------------------------ ingest

  /** A row waits for the event with a reversal id already used elsewhere, or for more than the event
      brings to the book. */
  predicate BlockedByParked(b: Book, e: Id, applied: int) {
    exists k | 0 <= k < |b.parked| ::
      b.parked[k].original == e && b.parked[k].waiting && (b.parked[k].reversal in b.reversals || b.parked[k].amount > applied)
  }

  /** The rows of a fresh event, all on its advance. */
  lemma FreshRows(allocs: seq<Alloc>, e: Id, a: Id, s: Split, feeFirst: bool)
    requires forall i | 0 <= i < |allocs| :: allocs[i].event != e
    requires OneAdvancePerEvent(allocs + Rows(e, a, s, feeFirst)) && s.fee >= 0 && s.principal >= 0 && s.fee + s.principal > 0
    ensures var t := allocs + Rows(e, a, s, feeFirst);
            && Tally(t, OfEvent(e, FeePart)) + Tally(t, OfEvent(e, PrincipalPart)) == s.fee + s.principal
            && ReceivableAdvance(t, e).Some?
            && (forall i | 0 <= i < |t| :: t[i].event == e ==> t[i].advance == a)
  {
    var rows := Rows(e, a, s, feeFirst);
    var t := allocs + rows;
    RowsBelong(e, a, s, feeFirst);
    TallyConcat(allocs, rows, OfEvent(e, FeePart));
    TallyConcat(allocs, rows, OfEvent(e, PrincipalPart));
    TallyRows(e, a, s, feeFirst, OfEvent(e, FeePart));
    TallyRows(e, a, s, feeFirst, OfEvent(e, PrincipalPart));
    NoRowsNoTally(allocs, e, FeePart);
    NoRowsNoTally(allocs, e, PrincipalPart);
    hide Tally, Rows;
    ReceivableAdvanceIs(t, e);
  }

  /** The event just booked holds exactly what was applied, on its advance. */
  lemma BookedEvent(b: Book, cmd: IngestCmd, a: Id)
    requires Base(b) && cmd.source !in b.events && cmd.payload.amount > 0
    requires a < |b.advances| && IsLive(b.advances[a].state) && AdvanceOk(b, a)
    ensures var b3 := BookedRecovery(b, cmd, a);
            && NetApplied(b3, cmd.source) == Min(cmd.payload.amount, b.advances[a].outstanding)
            && ReceivableAdvance(b3.allocs, cmd.source).Some?
            && (forall i | 0 <= i < |b3.allocs| :: b3.allocs[i].event == cmd.source ==> b3.allocs[i].advance == a)
            && |b3.advances| == |b.advances| && !b3.advances[a].state.WrittenOff?
  {
    hide *;
    BaseParts(b);
    CoreFacts(b, a);
    FreshSource(b, cmd.source);
    var applied := Min(cmd.payload.amount, b.advances[a].outstanding);
    MinOf(cmd.payload.amount, b.advances[a].outstanding);
    BookedSplitOk(b, cmd, a, applied);
    var s := WaterfallSplit(WithEvent(b, cmd, Allocated), a, applied, cmd.feeFirst);
    BookedKeepsBase(b, cmd, a);
    BaseRows(BookedRecovery(b, cmd, a));
    BookedRows(b, cmd, a);
    FreshRows(b.allocs, cmd.source, a, s, cmd.feeFirst);
    NetAppliedIs(BookedRecovery(b, cmd, a), cmd.source);
  }

  lemma BookedSplitOk(b: Book, cmd: IngestCmd, a: Id, applied: int)
    requires a < |b.advances| && AdvanceOk(b, a) && IsLive(b.advances[a].state) && 0 < applied <= b.advances[a].outstanding
    ensures var bf := WithEvent(b, cmd, Allocated);
            && a < |bf.advances|
            && var s := WaterfallSplit(bf, a, applied, cmd.feeFirst);
               s.fee >= 0 && s.principal >= 0 && s.fee + s.principal == applied
  {
    var bf := WithEvent(b, cmd, Allocated);
    assert AdvanceOk(bf, a);
    SplitOfRecovery(bf, a, applied, cmd.feeFirst);
    hide WaterfallSplit, Tally;
  }

  lemma BookedRows(b: Book, cmd: IngestCmd, a: Id)
    requires a < |b.advances| && b.advances[a].pool.Some? && b.advances[a].pool.value < |b.pools|
    ensures var b3 := BookedRecovery(b, cmd, a);
            var bf := WithEvent(b, cmd, Allocated);
            var s := WaterfallSplit(bf, a, Min(cmd.payload.amount, b.advances[a].outstanding), cmd.feeFirst);
            && b3.allocs == b.allocs + Rows(cmd.source, a, s, cmd.feeFirst)
            && |b3.advances| == |b.advances| && !b3.advances[a].state.WrittenOff?
  {
    var bf := WithEvent(b, cmd, Allocated);
    RecoveredFields(bf, cmd.source, a, Min(cmd.payload.amount, b.advances[a].outstanding), cmd.feeFirst);
    hide Recovered, WaterfallSplit, Lines, Seeded;
  }

  /** The parked reversal of a freshly booked event sinks the transaction exactly when its id is already
      used, or it asks for more than was applied. */
  lemma ParkedOutcome(b: Book, cmd: IngestCmd, a: Id)
    requires Base(b) && cmd.source !in b.events && cmd.payload.amount > 0
    requires a < |b.advances| && IsLive(b.advances[a].state) && AdvanceOk(b, a)
    ensures var applied := Min(cmd.payload.amount, b.advances[a].outstanding);
            var res := ApplyParkedIfAny(BookedRecovery(b, cmd, a), cmd.source, cmd.feeFirst);
            && (res.Err? <==> BlockedByParked(b, cmd.source, applied))
            && (res.Ok? ==> Base(res.value) && res.value.events.Keys == b.events.Keys + {cmd.source} && res.value.ingested == b.ingested)
  {
    BaseRows(b);
    assert b.advances[a].pool.Some? && b.advances[a].pool.value < |b.pools|;
    WithEventKeys(b, cmd, Allocated);
    BookedKeepsBase(b, cmd, a);
    BookedEvent(b, cmd, a);
    BaseRows(BookedRecovery(b, cmd, a));
    var applied := Min(cmd.payload.amount, b.advances[a].outstanding);
    hide *;
    ParkedAfterBooking(b, BookedRecovery(b, cmd, a), cmd.source, a, applied, cmd.feeFirst);
  }

  lemma WithEventKeys(b: Book, cmd: IngestCmd, state: EventState)
    ensures var m := WithEvent(b, cmd, state).events;
            cmd.source in m && m[cmd.source].state == state && m.Keys == b.events.Keys + {cmd.source}
    ensures WithEvent(b, cmd, state).advances == b.advances
  {
  }

  lemma ParkedAfterBooking(b: Book, b3: Book, e: Id, a: Id, applied: int, feeFirst: bool)
    requires QueuesOk(b) && Base(b3)
    requires e !in b.events && b3.parked == b.parked && b3.reversals == b.reversals
    requires e in b3.events && b3.events[e].state.Allocated? && NetApplied(b3, e) == applied
    requires OneAdvancePerEvent(b3.allocs) && ReceivableAdvance(b3.allocs, e).Some?
    requires forall i | 0 <= i < |b3.allocs| :: b3.allocs[i].event == e ==> b3.allocs[i].advance == a
    requires a < |b3.advances| && !b3.advances[a].state.WrittenOff?
    ensures var res := ApplyParkedIfAny(b3, e, feeFirst);
            && (res.Err? <==> BlockedByParked(b, e, applied))
            && (res.Ok? ==> Base(res.value) && res.value.events.Keys == b3.events.Keys && res.value.ingested == b3.ingested)
  {
    hide Base, TryParked, NetApplied;
    FindParkedIs(b3.parked, e);
    hide FindParked;
    var found := FindParked(b3.parked, e);
    if found.Some? {
      var k := found.value;
      BlockedIsOne(b, k, e, applied);
      TryParkedOutcome(b3, k, e, feeFirst);
      ClaimOfBooked(b, b3, e, a, k, applied);
      hide Claimable;
      if TryParked(b3, k, e, feeFirst).Ok? {
        TryParkedKeepsBase(b3, k, e, feeFirst);
      }
    }
  }

  /** For the event just booked, claiming means: an unused id and no more than was applied. */
  lemma ClaimOfBooked(b: Book, b3: Book, e: Id, a: Id, k: Id, applied: int)
    requires QueuesOk(b) && e !in b.events && b3.parked == b.parked && b3.reversals == b.reversals && k < |b.parked|
    requires e in b3.events && b3.events[e].state.Allocated? && NetApplied(b3, e) == applied
    requires OneAdvancePerEvent(b3.allocs) && ReceivableAdvance(b3.allocs, e).Some?
    requires forall i | 0 <= i < |b3.allocs| :: b3.allocs[i].event == e ==> b3.allocs[i].advance == a
    requires a < |b3.advances| && !b3.advances[a].state.WrittenOff?
    ensures var p := b.parked[k];
            && (Claimable(b3, e, p.amount, p.reversal) <==> p.reversal !in b.reversals && p.amount <= applied)
            && (p.reversal in b.reversals ==> b.reversals[p.reversal].original != e)
  {
    ReceivableAdvanceIs(b3.allocs, e);
    hide NetApplied, Tally;
  }

  /** At most one row waits for an event. */
  lemma BlockedIsOne(b: Book, k: Id, e: Id, applied: int)
    requires QueuesOk(b) && k < |b.parked| && b.parked[k].original == e && b.parked[k].waiting
    ensures BlockedByParked(b, e, applied) <==> b.parked[k].reversal in b.reversals || b.parked[k].amount > applied
  {
  }

  /** A parked row's new attempt errs exactly when its reversal is neither claimable nor a replay. */
  lemma TryParkedOutcome(b: Book, k: Id, e: Id, feeFirst: bool)
    requires Base(b) && k < |b.parked| && e in b.events && b.events[e].state.Allocated?
    ensures var p := b.parked[k];
            TryParked(b, k, e, feeFirst).Err? <==>
              !Claimable(b, e, p.amount, p.reversal)
              && !(p.reversal in b.reversals && b.reversals[p.reversal].original == e && b.reversals[p.reversal].amount == p.amount)
  {
    hide ApplyReversal, Claimable, Base, RowOk;
    var p := b.parked[k];
    ParkedPositive(b, k);
    ReversalErr(b, e, p.amount, p.reversal, feeFirst);
    if ApplyReversal(b, e, p.amount, p.reversal, feeFirst).Ok? {
      AppliedKeepsBase(b, e, p.amount, p.reversal, feeFirst);
    }
  }

  /** A reversal of an allocated event ends in success, a replay or one of the two collisions exactly when
      it is claimable or already recorded with the same fields. */
  lemma ReversalErr(b: Book, e: Id, amount: int, r: Id, feeFirst: bool)
    requires Base(b) && e in b.events && b.events[e].state.Allocated? && amount > 0
    ensures var res := ApplyReversal(b, e, amount, r, feeFirst);
            (res.Ok? || res == Err(ConcurrentAdvance) || res == Err(PoolOverAllocated)) <==>
              Claimable(b, e, amount, r)
              || (r in b.reversals && b.reversals[r].original == e && b.reversals[r].amount == amount)
  {
    hide ApplyReversal, Base, AdvanceOk, SlotTaken, ReversedBook, Tally;
    ReversalOutcome(b, e, amount, r, feeFirst);
  }

  /** Exactly when a recovery event is refused: a non-positive amount, a source id reused with another
      payload, or a fresh event of a subscriber with a live advance blocked by its parked reversal. */
  predicate IngestRefused(b: Book, cmd: IngestCmd) {
    || cmd.payload.amount <= 0
    || (cmd.source in b.ingested && b.ingested[cmd.source].payload != cmd.payload)
    || (cmd.source !in b.ingested && cmd.subscriber.Some? &&
        var live := FindLive(b.advances, cmd.subscriber.value);
        live.Some? && live.value < |b.advances|
        && BlockedByParked(b, cmd.source, Min(cmd.payload.amount, b.advances[live.value].outstanding)))
  }

  lemma IngestOutcome(b: Book, cmd: IngestCmd)
    requires Inv(b)
    ensures Ingest(b, cmd).Err? <==> IngestRefused(b, cmd)
    ensures Ingest(b, cmd).Ok? ==> Inv(Ingest(b, cmd).value.0)
  {
    hide Base;
    if cmd.payload.amount > 0 && cmd.source !in b.ingested {
      assert cmd.source !in b.events;
      match cmd.subscriber
      case None =>
        UnmatchedGoesThrough(b, cmd);
        IngestOf(b, cmd, WithEvent(b, cmd, Unmatched), IngestResult(Unmatched, 0, 0, false));
      case Some(subscriber) =>
        FindLiveIs(b.advances, subscriber);
        match FindLive(b.advances, subscriber)
        case Some(a) => IngestOnLive(b, cmd, a);
        case None => IngestWithoutLive(b, cmd, subscriber);
    }
  }

  /** The last statement records the answer. */
  lemma IngestOf(b: Book, cmd: IngestCmd, b1: Book, res: IngestResult)
    requires cmd.payload.amount > 0 && cmd.source !in b.ingested && b.ingested.Keys == b.events.Keys
    requires ClassifyAndApply(b, cmd) == Ok((b1, res)) && Base(b1)
    requires b1.events.Keys == b.events.Keys + {cmd.source} && b1.ingested == b.ingested
    ensures Ingest(b, cmd) == Ok((b1.(ingested := b1.ingested[cmd.source := Ingested(cmd.payload, res)]), res))
    ensures Inv(Ingest(b, cmd).value.0)
  {
    hide ClassifyAndApply;
    var b2 := b1.(ingested := b1.ingested[cmd.source := Ingested(cmd.payload, res)]);
    BaseIgnoresIngested(b1, b2);
    hide Base;
  }

  lemma BaseIgnoresIngested(b: Book, b2: Book)
    requires Base(b) && b2 == b.(ingested := b2.ingested)
    ensures Base(b2)
  {
    hide Tally, Core;
    CoreFrame(b, b2);
    forall e | e in b2.events ensures EventOk(b2, e) {
      assert EventOk(b, e);
    }
    forall i | 0 <= i < |b2.allocs| ensures RowOk(b2, b2.allocs[i]) {
      assert RowOk(b, b.allocs[i]);
    }
    forall i | 0 <= i < |b2.journals| ensures KeyOk(b2, b2.journals[i].key) {
      assert KeyOk(b, b.journals[i].key);
    }
    forall w | 0 <= w < |b2.writeOffs| ensures WriteOffOk(b2, w) {
      assert WriteOffOk(b, w);
    }
  }

  lemma IngestOnLive(b: Book, cmd: IngestCmd, a: Id)
    requires Inv(b) && cmd.payload.amount > 0 && cmd.source !in b.ingested && cmd.subscriber.Some?
    requires FindLive(b.advances, cmd.subscriber.value) == Some(a) && a < |b.advances| && IsLive(b.advances[a].state)
    ensures Ingest(b, cmd).Err? <==> IngestRefused(b, cmd)
    ensures Ingest(b, cmd).Ok? ==> Inv(Ingest(b, cmd).value.0)
  {
    assert AdvanceOk(b, a);
    FreshSource(b, cmd.source);
    RecoverParts(b, cmd, a);
    ParkedOutcome(b, cmd, a);
    hide Base, Recover, ApplyParkedIfAny, BookedRecovery, AdvanceOk, KeyTaken, Core;
    var r := Recover(WithEvent(b, cmd, Pending), cmd, a);
    assert ClassifyAndApply(b, cmd) == r;
    if r.Ok? {
      IngestOf(b, cmd, r.value.0, r.value.1);
    }
    hide ClassifyAndApply;
  }

  lemma IngestWithoutLive(b: Book, cmd: IngestCmd, subscriber: Id)
    requires Inv(b) && cmd.payload.amount > 0 && cmd.source !in b.ingested && cmd.subscriber == Some(subscriber)
    requires FindLive(b.advances, subscriber).None?
    ensures Ingest(b, cmd).Ok? && !IngestRefused(b, cmd) && Inv(Ingest(b, cmd).value.0)
  {
    FreshSource(b, cmd.source);
    assert WriteOffsOk(b) && forall i | 0 <= i < |b.journals| :: KeyOk(b, b.journals[i].key);
    hide Base;
    var b1 := WithEvent(b, cmd, Pending);
    FindWrittenOffIs(b, b.journals, subscriber);
    FindWrittenOffElsewhere(b, b1, b.journals, subscriber);
    hide WriteOffsOk, KeyOk, KeyTaken, FindWrittenOff;
    var found := FindWrittenOff(b, b.journals, subscriber);
    if found.Some? {
      IncomeGoesThrough(b, cmd, found.value);
      IncomeKeepsBase(b, cmd, found.value);
      IncomeKeys(b, cmd, found.value);
      hide WriteoffIncome, IncomeBook;
      IngestOf(b, cmd, IncomeBook(b, cmd, found.value), IngestResult(Allocated, cmd.payload.amount, 0, false));
    } else {
      QuarantineGoesThrough(b, cmd);
      QuarantineKeepsBase(b, cmd);
      IncomeKeys(b, cmd, 0);
      hide Quarantine, QuarantinedBook;
      IngestOf(b, cmd, QuarantinedBook(b, cmd), IngestResult(Quarantined, 0, cmd.payload.amount, false));
    }
  }

  lemma IncomeKeys(b: Book, cmd: IngestCmd, a: Id)
    ensures IncomeBook(b, cmd, a).events.Keys == QuarantinedBook(b, cmd).events.Keys == b.events.Keys + {cmd.source}
    ensures IncomeBook(b, cmd, a).ingested == QuarantinedBook(b, cmd).ingested == b.ingested
  {
    hide Lines, Seeded;
  }

  lemma {:induction false} FindWrittenOffElsewhere(b: Book, b2: Book, journals: seq<Journal<JournalKey, Account>>, subscriber: Id)
    requires b2.advances == b.advances && b2.writeOffs == b.writeOffs
    ensures FindWrittenOff(b2, journals, subscriber) == FindWrittenOff(b, journals, subscriber)
  {
    if journals != [] {
      FindWrittenOffElsewhere(b, b2, journals[..|journals| - 1], subscriber);
    }
  }

  lemma PoolsFit(b: Book)
    requires Inv(b)
    ensures forall p | 0 <= p < |b.pools| :: b.pools[p].Fits()
  {
    hide EventOk, RowsOk, KeysOk, WriteOffsOk, QueuesOk, Total, Tally, LedgerMatches;
  }

  lemma InvAdvance(b: Book, a: Id)
    requires Inv(b) && a < |b.advances|
    ensures Base(b) && Core(b) && AdvanceOk(b, a) && b.ingested.Keys == b.events.Keys
    ensures b.advances[a].pool.Some? && b.advances[a].pool.value < |b.pools|
  {
    hide Tally, EventOk, RowsOk, KeysOk, WriteOffsOk, QueuesOk;
  }

  // ------------------------------------------------------------------ origination

  /** References when only advance `a`'s row and the pools change and no journal is added. */
  lemma QuietReferences(b: Book, b2: Book, a: Id)
    requires b2 == b.(advances := b2.advances, pools := b2.pools) && |b2.advances| == |b.advances| && a < |b.advances|
    requires forall i | 0 <= i < |b.advances| && i != a :: b2.advances[i] == b.advances[i]
    requires (!IsIssued(b.advances[a].state) && !IsIssued(b2.advances[a].state)) || b2.advances[a].state == b.advances[a].state
    requires (forall e | e in b.events :: EventOk(b, e)) && RowsOk(b) && KeysOk(b) && WriteOffsOk(b) && QueuesOk(b)
    ensures (forall e | e in b2.events :: EventOk(b2, e)) && RowsOk(b2) && KeysOk(b2) && WriteOffsOk(b2) && QueuesOk(b2)
  {
    hide Tally;
    forall e | e in b2.events ensures EventOk(b2, e) {
      assert EventOk(b, e);
    }
    forall i | 0 <= i < |b2.allocs| ensures RowOk(b2, b2.allocs[i]) {
      assert RowOk(b, b.allocs[i]);
    }
    forall i | 0 <= i < |b2.journals| ensures KeyOk(b2, b2.journals[i].key) {
      assert KeyOk(b, b.journals[i].key);
    }
    forall w | 0 <= w < |b2.writeOffs| ensures WriteOffOk(b2, w) {
      assert WriteOffOk(b, w);
    }
  }

  /** No rows for an advance that does not exist yet. */
  lemma {:induction false} NoRowsYet(allocs: seq<Alloc>, n: Id, c: Component)
    requires forall i | 0 <= i < |allocs| :: allocs[i].advance < n
    ensures Tally(allocs, OfAdvance(n, c)) == 0
  {
    if allocs != [] {
      NoRowsYet(allocs[..|allocs| - 1], n, c);
    }
  }

  lemma AcceptReferences(b: Book, adv: Advance, p: Id)
    requires p < |b.pools|
    requires (forall e | e in b.events :: EventOk(b, e)) && RowsOk(b) && KeysOk(b) && WriteOffsOk(b) && QueuesOk(b)
    ensures var b2 := AcceptedBook(b, adv, p);
            (forall e | e in b2.events :: EventOk(b2, e)) && RowsOk(b2) && KeysOk(b2) && WriteOffsOk(b2) && QueuesOk(b2)
  {
    var b2 := AcceptedBook(b, adv, p);
    hide Tally;
    assert forall i | 0 <= i < |b.advances| :: b2.advances[i] == b.advances[i];
    forall e | e in b2.events ensures EventOk(b2, e) {
      assert EventOk(b, e);
    }
    forall i | 0 <= i < |b2.allocs| ensures RowOk(b2, b2.allocs[i]) {
      assert RowOk(b, b.allocs[i]);
    }
    forall i | 0 <= i < |b2.journals| ensures KeyOk(b2, b2.journals[i].key) {
      assert KeyOk(b, b.journals[i].key);
    }
    forall w | 0 <= w < |b2.writeOffs| ensures WriteOffOk(b2, w) {
      assert WriteOffOk(b, w);
    }
  }

  lemma AcceptKeepsInv(b: Book, subscriber: Id, programme: Id, offer: PricedOffer, deferred: bool)
    requires Inv(b) && Accept(b, subscriber, programme, offer, deferred).Ok?
    ensures Inv(Accept(b, subscriber, programme, offer, deferred).value)
  {
    AcceptGoesThrough(b, subscriber, programme, offer, deferred);
    FirstWithHeadroom(b.pools, programme, offer.repayment);
    var adv := NewAdvance(subscriber, programme, offer, deferred);
    var p := PoolWithHeadroom(b.pools, programme, offer.repayment).value;
    BaseRows(b);
    forall c: Component ensures Tally(b.allocs, OfAdvance(|b.advances|, c)) == 0 {
      NoRowsYet(b.allocs, |b.advances|, c);
    }
    hide Accept, Tally, Core, EventOk, RowsOk, KeysOk, WriteOffsOk, QueuesOk;
    AcceptKeepsCore(b, adv, p);
    AcceptReferences(b, adv, p);
  }

  /** A pending advance has no ADVANCE_ISSUED journal. */
  lemma NotIssuedYet(b: Book, a: Id)
    requires KeysOk(b) && a < |b.advances| && !IsIssued(b.advances[a].state)
    ensures !KeyTaken(b.journals, IssuedKey(a))
  {
    forall i | 0 <= i < |b.journals| ensures b.journals[i].key != IssuedKey(a) {
      assert KeyOk(b, b.journals[i].key);
    }
  }

  lemma ConfirmReferences(b: Book, a: Id)
    requires a < |b.advances| && AdvanceOk(b, a) && IsPending(b.advances[a].state)
    requires (forall e | e in b.events :: EventOk(b, e)) && RowsOk(b) && KeysOk(b) && WriteOffsOk(b) && QueuesOk(b)
    ensures var b2 := ConfirmedBook(b, a);
            (forall e | e in b2.events :: EventOk(b2, e)) && RowsOk(b2) && KeysOk(b2) && WriteOffsOk(b2) && QueuesOk(b2)
            && b2.events == b.events && b2.ingested == b.ingested
  {
    var b2 := ConfirmedBook(b, a);
    hide Tally, Lines, Seeded;
    assert b.allocs + [] == b.allocs;
    forall e | e in b2.events ensures EventOk(b2, e) {
      assert EventOk(b, e);
    }
    forall i | 0 <= i < |b2.allocs| ensures RowOk(b2, b2.allocs[i]) {
      assert RowOk(b, b.allocs[i]);
    }
    assert b2.advances[a].state.Active? && b2.journals == b.journals + [b2.journals[|b.journals|]];
    hide EventOk;
    KeysAfter(b, b2, a, IssuedKey(a), b2.journals[|b.journals|].lines);
    WriteOffsAfter(b, b2, a);
  }

  /** In a reachable state an outcome never fails to apply: no underflow, no collision, no refused posting. */
  lemma ResolveOutcome(b: Book, a: Id, outcome: Outcome)
    requires Inv(b)
    ensures Resolve(b, a, outcome).Ok? <==> a < |b.advances|
    ensures Resolve(b, a, outcome).Ok? ==> Inv(Resolve(b, a, outcome).value)
  {
    hide *;
    if a < |b.advances| {
      InvAdvance(b, a);
      BaseParts(b);
      if IsPending(b.advances[a].state) {
        PendingNotIssued(b.advances[a].state);
        NotIssuedYet(b, a);
        ResolveGoesThrough(b, a, outcome);
        match outcome
        case OutcomeConfirmed =>
          ConfirmKeepsCore(b, a);
          ConfirmReferences(b, a);
          InvWhole(ConfirmedBook(b, a));
        case OutcomeUnknown =>
          UnknownKeepsCore(b, a);
          UnknownReferences(b, a);
          InvWhole(UnknownBook(b, a));
        case _ =>
          FailKeepsCore(b, a);
          UnknownReferences(b, a);
          InvWhole(FailedBook(b, a));
      } else {
        ResolveSettled(b, a, outcome);
      }
    } else {
      ResolveMissing(b, a, outcome);
    }
  }

  lemma ResolveSettled(b: Book, a: Id, outcome: Outcome)
    requires a < |b.advances| && !IsPending(b.advances[a].state)
    ensures Resolve(b, a, outcome) == Ok(b)
  {
  }

  lemma ResolveMissing(b: Book, a: Id, outcome: Outcome)
    requires a >= |b.advances|
    ensures Resolve(b, a, outcome) == Err(NotFound)
  {
  }

  lemma PendingNotIssued(s: AdvanceState)
    requires IsPending(s)
    ensures !IsIssued(s)
  {
  }

  lemma InvWhole(b: Book)
    requires Core(b) && (forall e | e in b.events :: EventOk(b, e)) && RowsOk(b) && KeysOk(b) && WriteOffsOk(b) && QueuesOk(b)
    requires b.ingested.Keys == b.events.Keys
    ensures Inv(b)
  {
    hide Core, EventOk, RowsOk, KeysOk, WriteOffsOk, QueuesOk;
  }

  lemma UnknownReferences(b: Book, a: Id)
    requires a < |b.advances| && AdvanceOk(b, a) && IsPending(b.advances[a].state)
    requires (forall e | e in b.events :: EventOk(b, e)) && RowsOk(b) && KeysOk(b) && WriteOffsOk(b) && QueuesOk(b)
    ensures forall b2 | b2 == UnknownBook(b, a) || b2 == FailedBook(b, a) ::
              (forall e | e in b2.events :: EventOk(b2, e)) && RowsOk(b2) && KeysOk(b2) && WriteOffsOk(b2) && QueuesOk(b2)
              && b2.events == b.events && b2.ingested == b.ingested
  {
    hide Tally, EventOk, RowsOk, KeysOk, WriteOffsOk, QueuesOk;
    QuietReferences(b, UnknownBook(b, a), a);
    QuietReferences(b, FailedBook(b, a), a);
  }

  lemma RescheduleKeepsInv(b: Book, a: Id)
    requires Inv(b)
    ensures Reschedule(b, a).Ok? && Inv(Reschedule(b, a).value)
  {
    if a < |b.advances| {
      hide Tally, Core, EventOk, RowsOk, KeysOk, WriteOffsOk, QueuesOk;
      RescheduleKeepsCore(b, a);
      QuietReferences(b, ResolveAttempt(b, a, Sent, AttemptUnknown), a);
    }
  }
}
