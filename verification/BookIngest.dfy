/** One recovery event end to end: what it books, when it can fail, and that it keeps the book. */
module BookIngest {
  import opened BookInvariant
  import opened BookMoney
  import opened BookReferences
  import opened BookReversal
  import opened BookSteps
  import opened BookTables
  import opened Common
  import opened Ledger
  import opened Templates

  lemma {:induction false} FindLiveIs(advances: seq<Advance>, subscriber: Id)
    ensures match FindLive(advances, subscriber)
            case None => forall i | 0 <= i < |advances| :: !(advances[i].subscriber == subscriber && IsLive(advances[i].state))
            case Some(a) => a < |advances| && advances[a].subscriber == subscriber && IsLive(advances[a].state)
  {
    if advances != [] {
      FindLiveIs(advances[..|advances| - 1], subscriber);
    }
  }

  lemma {:induction false} FindWrittenOffIs(b: Book, journals: seq<Journal<JournalKey, Account>>, subscriber: Id)
    requires forall i | 0 <= i < |journals| :: KeyOk(b, journals[i].key)
    requires WriteOffsOk(b)
    ensures match FindWrittenOff(b, journals, subscriber)
            case None => forall i | 0 <= i < |journals| :: !IsWriteOffOf(b, journals[i].key, subscriber)
            case Some(a) => a < |b.advances| && b.advances[a].subscriber == subscriber && b.advances[a].state.WrittenOff?
  {
    if journals != [] {
      var n := |journals| - 1;
      FindWrittenOffIs(b, journals[..n], subscriber);
      var k := journals[n].key;
      assert KeyOk(b, k);
      if k.WriteOffKey? {
        assert WriteOffOk(b, k.writeOff);
      }
      assert forall i | 0 <= i < n :: journals[..n][i] == journals[i];
    }
  }

  /** A subscriber with a written-off advance always gets one found. */
  lemma WrittenOffIsFound(b: Book, subscriber: Id, a: Id)
    requires KeysOk(b) && WriteOffsOk(b)
    requires a < |b.advances| && b.advances[a].subscriber == subscriber && b.advances[a].state.WrittenOff?
    ensures FindWrittenOff(b, b.journals, subscriber).Some?
  {
    var w :| 0 <= w < |b.writeOffs| && b.writeOffs[w].advance == a && b.writeOffs[w].state.WoPosted?;
    assert KeyTaken(b.journals, WriteOffKey(w));
    var i :| 0 <= i < |b.journals| && b.journals[i].key == WriteOffKey(w);
    assert IsWriteOffOf(b, b.journals[i].key, subscriber);
    FindWrittenOffIs(b, b.journals, subscriber);
  }

  // ------------------------------------------------------------------ small steps that keep the book

  /** A new event without rows. */
  lemma NewEventKeepsBase(b: Book, e: Id, ev: Event)
    requires Base(b) && e !in b.events && ev.amount > 0 && !ev.state.Pending?
    ensures Base(b.(events := b.events[e := ev]))
  {
    var b2 := b.(events := b.events[e := ev]);
    hide Tally, Core;
    CoreFrame(b, b2);
    forall i | 0 <= i < |b.allocs| ensures b.allocs[i].event != e && RowOk(b2, b.allocs[i]) {
      assert RowOk(b, b.allocs[i]);
    }
    NoRowsNoTally(b.allocs, e, FeePart);
    NoRowsNoTally(b.allocs, e, PrincipalPart);
    NoRowsNoTally(b.allocs, e, WriteoffIncomePart);
    forall x | x in b2.events ensures EventOk(b2, x) {
      assert x != e ==> EventOk(b, x);
    }
    forall i | 0 <= i < |b2.journals| ensures KeyOk(b2, b2.journals[i].key) {
      assert KeyOk(b, b.journals[i].key);
    }
    forall w | 0 <= w < |b2.writeOffs| ensures WriteOffOk(b2, w) {
      assert WriteOffOk(b, w);
    }
  }

  lemma SuspenseKeepsBase(b: Book, e: Id, amount: int)
    requires Base(b) && e in b.events && amount > 0
    ensures Base(b.(suspense := b.suspense[e := amount]))
  {
    var b2 := b.(suspense := b.suspense[e := amount]);
    hide Tally, Core;
    CoreFrame(b, b2);
    SameReferences(b, b2);
  }

  /** References that do not look at suspense, journals or the recovery idempotency records. */
  lemma SameReferences(b: Book, b2: Book)
    requires b2 == b.(suspense := b2.suspense, journals := b2.journals)
    requires (forall e | e in b.events :: EventOk(b, e)) && RowsOk(b) && WriteOffsOk(b)
    ensures (forall e | e in b2.events :: EventOk(b2, e)) && RowsOk(b2) && WriteOffsOk(b2)
    ensures b2.journals == b.journals && KeysOk(b) ==> KeysOk(b2)
  {
    hide Tally;
    forall e | e in b2.events ensures EventOk(b2, e) {
      assert EventOk(b, e);
    }
    forall i | 0 <= i < |b2.allocs| ensures RowOk(b2, b2.allocs[i]) {
      assert RowOk(b, b.allocs[i]);
    }
    forall w | 0 <= w < |b2.writeOffs| ensures WriteOffOk(b2, w) {
      assert WriteOffOk(b, w);
    }
    forall k: JournalKey ensures KeyOk(b2, k) == KeyOk(b, k) {
    }
  }

  /** The journal of a step that moves no receivable: suspense, quarantine or write-off income. */
  lemma NeutralJournalKeepsBase(b: Book, e: Id, key: JournalKey, t: EventType, v: Values)
    requires Base(b) && e in b.events && key in {SuspenseKey(e), QuarantineKey(e), IncomeKey(e)}
    requires !KeyTaken(b.journals, key) && GoodValues(t, v) && ReceivableMove(t, v) == UnearnedMove(t, v) == 0
    ensures Base(b.(journals := b.journals + [Journal(key, Lines(Seeded(t), v, CURRENCY))]))
  {
    hide *;
    BaseParts(b);
    var j := Journal(key, Lines(Seeded(t), v, CURRENCY));
    var b2 := b.(journals := b.journals + [j]);
    NeutralJournal(b, key, t, v);
    SameReferences(b, b2);
    NeutralKeys(b, b2, e, j);
    QueuesFrame(b, b2);
    BaseWhole(b2);
  }

  lemma QueuesFrame(b: Book, b2: Book)
    requires QueuesOk(b) && b2.parked == b.parked && b2.reversals == b.reversals && b2.suspense == b.suspense && b2.events == b.events
    ensures QueuesOk(b2)
  {
  }

  lemma NeutralKeys(b: Book, b2: Book, e: Id, j: Journal<JournalKey, Account>)
    requires KeysOk(b) && e in b.events && j.key in {SuspenseKey(e), QuarantineKey(e), IncomeKey(e)}
    requires b2 == b.(journals := b.journals + [j])
    ensures KeysOk(b2)
  {
    forall i | 0 <= i < |b2.journals| ensures KeyOk(b2, b2.journals[i].key) {
      if i < |b.journals| {
        assert b2.journals[i] == b.journals[i] && KeyOk(b, b.journals[i].key);
      }
    }
    forall k: JournalKey | KeyTaken(b.journals, k) ensures KeyTaken(b2.journals, k) {
      var i :| 0 <= i < |b.journals| && b.journals[i].key == k;
      assert b2.journals[i].key == k;
    }
  }

  /** The income row of an event that has none yet. */
  lemma IncomeRowKeepsBase(b: Book, e: Id, a: Id, amount: int)
    requires Base(b) && e in b.events && a < |b.advances| && b.advances[a].state.WrittenOff?
    requires b.events[e].state.Allocated? && 0 < amount <= b.events[e].amount
    requires forall i | 0 <= i < |b.allocs| :: b.allocs[i].event != e
    ensures Base(b.(allocs := b.allocs + [Alloc(e, a, WriteoffIncomePart, amount)]))
  {
    hide *;
    BaseParts(b);
    var b2 := b.(allocs := b.allocs + [Alloc(e, a, WriteoffIncomePart, amount)]);
    forall i: Id
      ensures Tally(b2.allocs, OfAdvance(i, FeePart)) == Tally(b.allocs, OfAdvance(i, FeePart))
      ensures Tally(b2.allocs, OfAdvance(i, PrincipalPart)) == Tally(b.allocs, OfAdvance(i, PrincipalPart))
    {
      IncomeRowNeutral(b.allocs, Alloc(e, a, WriteoffIncomePart, amount), i);
    }
    CoreFrame(b, b2);
    forall x | x in b2.events ensures EventOk(b2, x) {
      IncomeRowEvent(b, b2, e, a, amount, x);
    }
    IncomeRowReferences(b, b2, e, a, amount);
    BaseWhole(b2);
  }

  lemma IncomeRowEvent(b: Book, b2: Book, e: Id, a: Id, amount: int, x: Id)
    requires b2 == b.(allocs := b.allocs + [Alloc(e, a, WriteoffIncomePart, amount)])
    requires e in b.events && b.events[e].state.Allocated? && 0 < amount <= b.events[e].amount
    requires forall i | 0 <= i < |b.allocs| :: b.allocs[i].event != e
    requires x in b.events && EventOk(b, x)
    ensures EventOk(b2, x)
  {
    assert b2.allocs[..|b.allocs|] == b.allocs;
    NoRowsNoTally(b.allocs, e, FeePart);
    NoRowsNoTally(b.allocs, e, PrincipalPart);
    NoRowsNoTally(b.allocs, e, WriteoffIncomePart);
  }

  lemma IncomeRowReferences(b: Book, b2: Book, e: Id, a: Id, amount: int)
    requires b2 == b.(allocs := b.allocs + [Alloc(e, a, WriteoffIncomePart, amount)])
    requires e in b.events && a < |b.advances| && b.advances[a].state.WrittenOff? && amount > 0
    requires forall i | 0 <= i < |b.allocs| :: b.allocs[i].event != e
    requires RowsOk(b) && KeysOk(b) && WriteOffsOk(b) && QueuesOk(b)
    ensures RowsOk(b2) && KeysOk(b2) && WriteOffsOk(b2) && QueuesOk(b2)
  {
    forall i | 0 <= i < |b2.allocs| ensures RowOk(b2, b2.allocs[i]) {
      if i < |b.allocs| {
        assert b2.allocs[i] == b.allocs[i] && RowOk(b, b.allocs[i]);
      }
    }
    forall i, j | 0 <= i < |b2.allocs| && 0 <= j < |b2.allocs| && b2.allocs[i].event == b2.allocs[j].event
      ensures b2.allocs[i].advance == b2.allocs[j].advance
    {
      if i < |b.allocs| { assert b2.allocs[i] == b.allocs[i]; }
      if j < |b.allocs| { assert b2.allocs[j] == b.allocs[j]; }
    }
    forall i | 0 <= i < |b2.journals| ensures KeyOk(b2, b2.journals[i].key) {
      assert KeyOk(b, b.journals[i].key);
    }
    forall w | 0 <= w < |b2.writeOffs| ensures WriteOffOk(b2, w) {
      assert WriteOffOk(b, w);
    }
  }

  // ------------------------------------------------------------------ the recovery of a live advance

  lemma RecoveredFields(b: Book, e: Id, a: Id, applied: int, feeFirst: bool)
    requires a < |b.advances| && b.advances[a].pool.Some? && b.advances[a].pool.value < |b.pools|
    ensures var b2 := Recovered(b, e, a, applied, feeFirst);
            var s := WaterfallSplit(b, a, applied, feeFirst);
            var v := Amounts(applied, if b.advances[a].deferred then s.fee else 0);
            && b2.allocs == b.allocs + Rows(e, a, s, feeFirst)
            && |b2.advances| == |b.advances|
            && (forall i | 0 <= i < |b.advances| && i != a :: b2.advances[i] == b.advances[i])
            && b2.advances[a].state == (if b.advances[a].outstanding == applied then Closed else PartiallyRecovered)
            && b2.events == b.events && b2.reversals == b.reversals && b2.parked == b.parked && b2.suspense == b.suspense
            && b2.ingested == b.ingested && b2.writeOffs == b.writeOffs
            && b2.journals == b.journals + [Journal(AppliedKey(e), Lines(Seeded(EventType.RecoveryApplied), v, CURRENCY))]
  {
    hide WaterfallSplit, Rows, Lines, Seeded;
  }

  lemma RecoveryKeepsEvent(b: Book, e: Id, a: Id, applied: int, feeFirst: bool, x: Id)
    requires a < |b.advances| && AdvanceOk(b, a) && IsLive(b.advances[a].state)
    requires 0 < applied <= b.advances[a].outstanding
    requires e in b.events && b.events[e].state.Allocated? && applied <= b.events[e].amount
    requires forall i | 0 <= i < |b.allocs| :: b.allocs[i].event != e
    requires x in b.events && EventOk(b, x)
    ensures EventOk(Recovered(b, e, a, applied, feeFirst), x)
  {
    var b2 := Recovered(b, e, a, applied, feeFirst);
    var s := WaterfallSplit(b, a, applied, feeFirst);
    SplitOfRecovery(b, a, applied, feeFirst);
    RecoveredFields(b, e, a, applied, feeFirst);
    EventsAfterReversal(b, e, a, s, feeFirst, x, FeePart);
    EventsAfterReversal(b, e, a, s, feeFirst, x, PrincipalPart);
    EventsAfterReversal(b, e, a, s, feeFirst, x, WriteoffIncomePart);
    NoRowsNoTally(b.allocs, e, FeePart);
    NoRowsNoTally(b.allocs, e, PrincipalPart);
    NoRowsNoTally(b.allocs, e, WriteoffIncomePart);
    EventOkIs(b, x);
    EventOkIs(b2, x);
    hide Tally, WaterfallSplit, Recovered, AdvanceOk, EventOk, Rows;
  }

  lemma RecoveryKeepsReferences(b: Book, e: Id, a: Id, applied: int, feeFirst: bool)
    requires a < |b.advances| && AdvanceOk(b, a) && IsLive(b.advances[a].state) && e in b.events
    requires forall i | 0 <= i < |b.allocs| :: b.allocs[i].event != e
    requires RowsOk(b) && KeysOk(b) && WriteOffsOk(b) && QueuesOk(b)
    ensures var b2 := Recovered(b, e, a, applied, feeFirst);
            RowsOk(b2) && KeysOk(b2) && WriteOffsOk(b2) && QueuesOk(b2)
  {
    var b2 := Recovered(b, e, a, applied, feeFirst);
    var s := WaterfallSplit(b, a, applied, feeFirst);
    RecoveredFields(b, e, a, applied, feeFirst);
    assert KeyOk(b2, AppliedKey(e));
    hide WaterfallSplit, Recovered, Lines, Seeded, Tally, AdvanceOk, Rows, RowsOk, KeysOk, WriteOffsOk, KeyOk;
    RowsOkAfter(b, b2, e, a, s, feeFirst);
    KeysAfter(b, b2, a, AppliedKey(e), b2.journals[|b.journals|].lines);
    WriteOffsAfter(b, b2, a);
  }

  lemma RecoveryKeepsBase(b: Book, e: Id, a: Id, applied: int, feeFirst: bool)
    requires Base(b) && a < |b.advances| && IsLive(b.advances[a].state)
    requires 0 < applied <= b.advances[a].outstanding
    requires e in b.events && b.events[e].state.Allocated? && applied <= b.events[e].amount
    requires forall i | 0 <= i < |b.allocs| :: b.allocs[i].event != e
    requires !KeyTaken(b.journals, AppliedKey(e))
    ensures AdvanceOk(b, a) && Base(Recovered(b, e, a, applied, feeFirst))
  {
    assert AdvanceOk(b, a);
    RecoveryKeepsCore(b, e, a, applied, feeFirst);
    hide Tally, Recovered, AdvanceOk, EventOk, Core, RowsOk, KeysOk, WriteOffsOk, QueuesOk, KeyTaken;
    RecoveryKeepsReferences(b, e, a, applied, feeFirst);
    forall x | x in b.events
      ensures var b2 := Recovered(b, e, a, applied, feeFirst); b2.events == b.events && EventOk(b2, x)
    {
      RecoveryKeepsEvent(b, e, a, applied, feeFirst, x);
      RecoveredFields(b, e, a, applied, feeFirst);
    }
  }

  // ------------------------------------------------------------------ the ingest, branch by branch

  /** Whatever an over-payment leaves is held, with its own journal. */
  ghost function Held(b: Book, e: Id, excess: int): Book {
    if excess <= 0 then b
    else
      b.(suspense := b.suspense[e := excess],
         journals := b.journals + [Journal(SuspenseKey(e), Lines(Seeded(EventType.RecoverySuspended), Amounts(excess, 0), CURRENCY))])
  }

  lemma HoldGoesThrough(b: Book, e: Id, excess: int)
    requires e !in b.suspense && !KeyTaken(b.journals, SuspenseKey(e))
    ensures HoldExcess(b, e, excess) == Ok(Held(b, e, excess))
  {
    if excess > 0 {
      Posts(b.(suspense := b.suspense[e := excess]), SuspenseKey(e), EventType.RecoverySuspended, Amounts(excess, 0));
    }
    hide PostEvent, KeyTaken;
  }

  lemma HeldKeepsBase(b: Book, e: Id, excess: int)
    requires Base(b) && e in b.events && !KeyTaken(b.journals, SuspenseKey(e))
    ensures Base(Held(b, e, excess))
  {
    hide Base;
    if excess > 0 {
      SuspenseKeepsBase(b, e, excess);
      NeutralJournalKeepsBase(b.(suspense := b.suspense[e := excess]), e, SuspenseKey(e), EventType.RecoverySuspended, Amounts(excess, 0));
    }
  }

  ghost function WithEvent(b: Book, cmd: IngestCmd, state: EventState): Book {
    b.(events := b.events[cmd.source := Event(cmd.subscriber, cmd.payload.amount, state)])
  }

  /** The book once the recovery and its excess are in, before any reversal parked for the event. */
  ghost function BookedRecovery(b: Book, cmd: IngestCmd, a: Id): Book
    requires a < |b.advances| && b.advances[a].pool.Some? && b.advances[a].pool.value < |b.pools|
  {
    var applied := Min(cmd.payload.amount, b.advances[a].outstanding);
    Held(Recovered(WithEvent(b, cmd, Allocated), cmd.source, a, applied, cmd.feeFirst), cmd.source, cmd.payload.amount - applied)
  }

  /** A fresh source id has left no trace. */
  lemma FreshSource(b: Book, e: Id)
    requires Base(b) && e !in b.events
    ensures e !in b.suspense
    ensures forall i | 0 <= i < |b.allocs| :: b.allocs[i].event != e
    ensures forall k: JournalKey | k in {AppliedKey(e), SuspenseKey(e), QuarantineKey(e), IncomeKey(e)} :: !KeyTaken(b.journals, k)
  {
    hide Core;
    forall i | 0 <= i < |b.allocs| ensures b.allocs[i].event != e {
      assert RowOk(b, b.allocs[i]);
    }
    forall i | 0 <= i < |b.journals| ensures KeyOk(b, b.journals[i].key) {
    }
  }

  lemma AppendTakesOne(b: Book, b2: Book, key: JournalKey, other: JournalKey, lines: seq<Line<Account>>)
    requires b2.journals == b.journals + [Journal(key, lines)] && key != other && !KeyTaken(b.journals, other)
    ensures !KeyTaken(b2.journals, other)
  {
  }

  /** Changing the event table does not disturb a recovery. */
  lemma RecoveredElsewhere(b: Book, m: map<Id, Event>, e: Id, a: Id, applied: int, feeFirst: bool)
    requires a < |b.advances| && b.advances[a].pool.Some? && b.advances[a].pool.value < |b.pools|
    ensures Recovered(b.(events := m), e, a, applied, feeFirst) == Recovered(b, e, a, applied, feeFirst).(events := m)
  {
    var b1 := b.(events := m);
    assert WaterfallSplit(b1, a, applied, feeFirst) == WaterfallSplit(b, a, applied, feeFirst);
    hide WaterfallSplit, Rows, Lines, Seeded;
  }

  /** The three statement groups of a recovery, on the book with its event pending. */
  lemma RecoverParts(b: Book, cmd: IngestCmd, a: Id)
    requires Core(b) && cmd.source !in b.suspense && cmd.payload.amount > 0
    requires !KeyTaken(b.journals, AppliedKey(cmd.source)) && !KeyTaken(b.journals, SuspenseKey(cmd.source))
    requires a < |b.advances| && IsLive(b.advances[a].state)
    ensures AdvanceOk(b, a)
    ensures var out := b.advances[a].outstanding;
            var applied := Min(cmd.payload.amount, out);
            Recover(WithEvent(b, cmd, Pending), cmd, a) ==
              match ApplyParkedIfAny(BookedRecovery(b, cmd, a), cmd.source, cmd.feeFirst)
              case Err(x) => Err(x)
              case Ok(b4) => Ok((b4, IngestResult(Allocated, applied, cmd.payload.amount - applied, applied == out)))
  {
    hide Core, Recovered, AdvanceOk, Lines, Seeded, Rows, WaterfallSplit, Tally, KeyTaken, PostEvent, ApplyToAdvance,
         ApplyParkedIfAny, Held, HoldExcess, SetEventState;
    CoreFacts(b, a);
    var e, out := cmd.source, b.advances[a].outstanding;
    var applied := Min(cmd.payload.amount, out);
    var bp, bf := WithEvent(b, cmd, Pending), WithEvent(b, cmd, Allocated);
    CoreFrame(b, bp);
    RecoveryGoesThrough(bp, e, a, applied, cmd.feeFirst);
    RecoveredElsewhere(b, bp.events, e, a, applied, cmd.feeFirst);
    RecoveredElsewhere(b, bf.events, e, a, applied, cmd.feeFirst);
    RecoveredFields(bp, e, a, applied, cmd.feeFirst);
    var rp, rf := Recovered(bp, e, a, applied, cmd.feeFirst), Recovered(bf, e, a, applied, cmd.feeFirst);
    AppendTakesOne(b, rp, AppliedKey(e), SuspenseKey(e), rp.journals[|b.journals|].lines);
    HoldGoesThrough(rp, e, cmd.payload.amount - applied);
    EventSet(b, cmd, rp, rf, cmd.payload.amount - applied);
  }

  /** For a fresh event on a live advance, everything up to the parked reversal goes through and keeps the
      book. */
  lemma BookedKeepsBase(b: Book, cmd: IngestCmd, a: Id)
    requires Base(b) && cmd.source !in b.events && cmd.payload.amount > 0
    requires a < |b.advances| && IsLive(b.advances[a].state)
    ensures AdvanceOk(b, a)
    ensures var b3 := BookedRecovery(b, cmd, a);
            && Base(b3) && b3.events == WithEvent(b, cmd, Allocated).events
            && b3.ingested == b.ingested && b3.parked == b.parked && b3.reversals == b.reversals
  {
    hide *;
    BaseParts(b);
    CoreFacts(b, a);
    var e, out := cmd.source, b.advances[a].outstanding;
    var applied := Min(cmd.payload.amount, out);
    MinOf(cmd.payload.amount, out);
    FreshSource(b, e);
    var bf := WithEvent(b, cmd, Allocated);
    WithEventIs(b, cmd, Allocated);
    NewEventKeepsBase(b, e, Event(cmd.subscriber, cmd.payload.amount, Allocated));
    RecoveryKeepsBase(bf, e, a, applied, cmd.feeFirst);
    var rf := Recovered(bf, e, a, applied, cmd.feeFirst);
    RecoveredFields(bf, e, a, applied, cmd.feeFirst);
    AppendTakesOne(b, rf, AppliedKey(e), SuspenseKey(e), rf.journals[|b.journals|].lines);
    HeldKeepsBase(rf, e, cmd.payload.amount - applied);
    HeldFrame(rf, e, cmd.payload.amount - applied);
    BookedIs(b, cmd, a);
  }

  lemma MinOf(x: int, y: int)
    ensures Min(x, y) <= x && Min(x, y) <= y && (x > 0 && y > 0 ==> Min(x, y) > 0)
  {
  }

  lemma WithEventIs(b: Book, cmd: IngestCmd, state: EventState)
    ensures var ev := Event(cmd.subscriber, cmd.payload.amount, state);
            WithEvent(b, cmd, state) == b.(events := b.events[cmd.source := ev])
  {
  }

  lemma BookedIs(b: Book, cmd: IngestCmd, a: Id)
    requires a < |b.advances| && b.advances[a].pool.Some? && b.advances[a].pool.value < |b.pools|
    ensures var applied := Min(cmd.payload.amount, b.advances[a].outstanding);
            BookedRecovery(b, cmd, a) == Held(Recovered(b.(events := b.events[cmd.source := Event(cmd.subscriber, cmd.payload.amount, Allocated)]),
                                                        cmd.source, a, applied, cmd.feeFirst), cmd.source, cmd.payload.amount - applied)
  {
    hide Held, Recovered;
  }

  lemma HeldFrame(b: Book, e: Id, excess: int)
    ensures var b2 := Held(b, e, excess);
            b2.events == b.events && b2.ingested == b.ingested && b2.parked == b.parked && b2.reversals == b.reversals
  {
    hide Lines, Seeded;
  }

  /** Settling the event's state last gives the same book as inserting it settled. */
  lemma EventSet(b: Book, cmd: IngestCmd, rp: Book, rf: Book, excess: int)
    requires rp.events == WithEvent(b, cmd, Pending).events && rf.events == WithEvent(b, cmd, Allocated).events
    requires rp.(events := rf.events) == rf
    ensures SetEventState(Held(rp, cmd.source, excess), cmd.source, Pending, Allocated) == Ok(Held(rf, cmd.source, excess))
  {
    hide Lines, Seeded;
    assert rp.events[cmd.source := rf.events[cmd.source]] == rf.events;
  }

  /** Settling the state of the event just inserted. */
  lemma Settles(b: Book, b2: Book, cmd: IngestCmd, to: EventState)
    requires b2.events == WithEvent(b, cmd, Pending).events
    ensures SetEventState(b2, cmd.source, Pending, to) == Ok(b2.(events := WithEvent(b, cmd, to).events))
  {
    assert b2.events[cmd.source := b2.events[cmd.source].(state := to)] == WithEvent(b, cmd, to).events;
  }

  lemma UnmatchedGoesThrough(b: Book, cmd: IngestCmd)
    requires Base(b) && cmd.source !in b.events && cmd.payload.amount > 0
    ensures Base(WithEvent(b, cmd, Unmatched))
    ensures SetEventState(WithEvent(b, cmd, Pending), cmd.source, Pending, Unmatched) == Ok(WithEvent(b, cmd, Unmatched))
  {
    NewEventKeepsBase(b, cmd.source, Event(cmd.subscriber, cmd.payload.amount, Unmatched));
    Settles(b, WithEvent(b, cmd, Pending), cmd, Unmatched);
    hide Base, SetEventState;
  }

  ghost function QuarantinedBook(b: Book, cmd: IngestCmd): Book {
    var b1 := WithEvent(b, cmd, Quarantined);
    b1.(suspense := b.suspense[cmd.source := cmd.payload.amount],
        journals := b.journals + [Journal(QuarantineKey(cmd.source),
                                          Lines(Seeded(EventType.RecoveryQuarantined), Amounts(cmd.payload.amount, 0), CURRENCY))])
  }

  lemma QuarantineGoesThrough(b: Book, cmd: IngestCmd)
    requires cmd.source !in b.suspense && !KeyTaken(b.journals, QuarantineKey(cmd.source)) && cmd.payload.amount > 0
    ensures Quarantine(WithEvent(b, cmd, Pending), cmd.source, cmd.payload.amount)
            == Ok((QuarantinedBook(b, cmd), IngestResult(Quarantined, 0, cmd.payload.amount, false)))
  {
    var e, amount := cmd.source, cmd.payload.amount;
    hide Lines, Seeded, PostEvent, SetEventState, KeyTaken;
    var bp := WithEvent(b, cmd, Pending);
    var b1 := bp.(suspense := bp.suspense[e := amount]);
    Posts(b1, QuarantineKey(e), EventType.RecoveryQuarantined, Amounts(amount, 0));
    var j := Journal(QuarantineKey(e), Lines(Seeded(EventType.RecoveryQuarantined), Amounts(amount, 0), CURRENCY));
    Settles(b, b1.(journals := b1.journals + [j]), cmd, Quarantined);
  }

  lemma QuarantineKeepsBase(b: Book, cmd: IngestCmd)
    requires Base(b) && cmd.source !in b.events && cmd.payload.amount > 0
    ensures Base(QuarantinedBook(b, cmd))
  {
    hide Base, Lines, Seeded, KeyTaken, Core;
    var e, amount := cmd.source, cmd.payload.amount;
    FreshSource(b, e);
    NewEventKeepsBase(b, e, Event(cmd.subscriber, amount, Quarantined));
    var b1 := WithEvent(b, cmd, Quarantined);
    SuspenseKeepsBase(b1, e, amount);
    NeutralJournalKeepsBase(b1.(suspense := b1.suspense[e := amount]), e, QuarantineKey(e), EventType.RecoveryQuarantined, Amounts(amount, 0));
  }

  ghost function IncomeBook(b: Book, cmd: IngestCmd, a: Id): Book {
    var b1 := WithEvent(b, cmd, Allocated);
    b1.(allocs := b.allocs + [Alloc(cmd.source, a, WriteoffIncomePart, cmd.payload.amount)],
        journals := b.journals + [Journal(IncomeKey(cmd.source),
                                          Lines(Seeded(EventType.WriteoffRecovery), Amounts(cmd.payload.amount, 0), CURRENCY))])
  }

  lemma IncomeGoesThrough(b: Book, cmd: IngestCmd, a: Id)
    requires !KeyTaken(b.journals, IncomeKey(cmd.source)) && cmd.payload.amount > 0
    ensures WriteoffIncome(WithEvent(b, cmd, Pending), cmd.source, a, cmd.payload.amount)
            == Ok((IncomeBook(b, cmd, a), IngestResult(Allocated, cmd.payload.amount, 0, false)))
  {
    var e, amount := cmd.source, cmd.payload.amount;
    hide Lines, Seeded, PostEvent, SetEventState, KeyTaken;
    var bp := WithEvent(b, cmd, Pending);
    var b1 := bp.(allocs := bp.allocs + [Alloc(e, a, WriteoffIncomePart, amount)]);
    Posts(b1, IncomeKey(e), EventType.WriteoffRecovery, Amounts(amount, 0));
    var j := Journal(IncomeKey(e), Lines(Seeded(EventType.WriteoffRecovery), Amounts(amount, 0), CURRENCY));
    Settles(b, b1.(journals := b1.journals + [j]), cmd, Allocated);
  }

  lemma IncomeKeepsBase(b: Book, cmd: IngestCmd, a: Id)
    requires Base(b) && cmd.source !in b.events && cmd.payload.amount > 0
    requires a < |b.advances| && b.advances[a].state.WrittenOff?
    ensures Base(IncomeBook(b, cmd, a))
  {
    hide Base, Lines, Seeded, KeyTaken, Core;
    var e, amount := cmd.source, cmd.payload.amount;
    FreshSource(b, e);
    NewEventKeepsBase(b, e, Event(cmd.subscriber, amount, Allocated));
    var b1 := WithEvent(b, cmd, Allocated);
    IncomeRowKeepsBase(b1, e, a, amount);
    NeutralJournalKeepsBase(b1.(allocs := b1.allocs + [Alloc(e, a, WriteoffIncomePart, amount)]), e, IncomeKey(e),
                            EventType.WriteoffRecovery, Amounts(amount, 0));
  }
}
