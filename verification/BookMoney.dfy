/** Each money statement sequence, in closed form, keeps the cross-checks. */
module BookMoney {
  import opened BookInvariant
  import opened BookSteps
  import opened BookTables
  import opened Common
  import opened Ledger
  import opened Seqs
  import opened Templates

  // ------------------------------------------------------------------ shared facts

  /** The waterfall consumes the whole amount whenever both components together hold it. */
  lemma DivideCovers(amount: int, feeLeft: int, principalLeft: int, feeFirst: bool)
    requires 0 <= amount <= feeLeft + principalLeft && feeLeft >= 0 && principalLeft >= 0
    ensures var s := Divide(amount, feeLeft, principalLeft, feeFirst);
            && s.fee + s.principal == amount
            && 0 <= s.fee <= feeLeft && 0 <= s.principal <= principalLeft
            && (if feeFirst then s.principal > 0 ==> s.fee == feeLeft else s.fee > 0 ==> s.principal == principalLeft)
  {
  }

  lemma SlotIsOwn(b: Book, a: Id)
    requires OneActive(b) && a < |b.advances| && IsOpen(b.advances[a].state)
    ensures !SlotTaken(b, a, b.advances[a].subscriber)
  {
    hide IsOpen;
  }

  lemma RowsBelong(e: Id, a: Id, s: Split, feeFirst: bool)
    ensures RowsOf(Rows(e, a, s, feeFirst), a)
  {
  }

  /** A fresh key with good figures posts. */
  lemma Posts(b: Book, key: JournalKey, e: EventType, v: Values)
    requires GoodValues(e, v) && !KeyTaken(b.journals, key)
    ensures PostEvent(b, key, e, v) == Ok(b.(journals := b.journals + [Journal(key, Lines(Seeded(e), v, CURRENCY))]))
  {
    SeededJournal(e, v, CURRENCY);
  }

  /** The guarded UPDATE on a row read in the same transaction: only the one-active index can refuse it. */
  lemma Sets(b: Book, a: Id, to: AdvanceState, outstanding: int)
    requires a < |b.advances| && outstanding >= 0
    requires CanTransition(b.advances[a].state, to) || to == b.advances[a].state
    ensures var adv := b.advances[a];
            SetOutstanding(b, a, adv.version, adv.state, to, outstanding) ==
              if IsOpen(to) && SlotTaken(b, a, adv.subscriber) then Err(ConcurrentAdvance)
              else Ok(b.(advances := b.advances[a := adv.(state := to, outstanding := outstanding, version := adv.version + 1)]))
  {
    hide SlotTaken, CanTransition, IsOpen;
  }

  /** A reduction within what the pool carries. */
  lemma Reduces(b: Book, p: Option<Id>, x: int)
    requires p.Some? && p.value < |b.pools| && b.pools[p.value].Fits() && 0 <= x <= b.pools[p.value].utilised
    ensures ReduceUtilisation(b, p, x)
            == Ok(b.(pools := b.pools[p.value := b.pools[p.value].(utilised := b.pools[p.value].utilised - x)]))
  {
  }

  /** The fee and principal tallies of one advance after its rows are added. */
  lemma TalliesAfter(allocs: seq<Alloc>, e: Id, a: Id, s: Split, feeFirst: bool)
    ensures Tally(allocs + Rows(e, a, s, feeFirst), OfAdvance(a, FeePart)) == Tally(allocs, OfAdvance(a, FeePart)) + s.fee
    ensures Tally(allocs + Rows(e, a, s, feeFirst), OfAdvance(a, PrincipalPart))
            == Tally(allocs, OfAdvance(a, PrincipalPart)) + s.principal
  {
    TallyConcat(allocs, Rows(e, a, s, feeFirst), OfAdvance(a, FeePart));
    TallyConcat(allocs, Rows(e, a, s, feeFirst), OfAdvance(a, PrincipalPart));
    TallyRows(e, a, s, feeFirst, OfAdvance(a, FeePart));
    TallyRows(e, a, s, feeFirst, OfAdvance(a, PrincipalPart));
  }

  // ------------------------------------------------------------------ recovery

  ghost function Recovered(b: Book, e: Id, a: Id, applied: int, feeFirst: bool): Book
    requires a < |b.advances| && b.advances[a].pool.Some? && b.advances[a].pool.value < |b.pools|
  {
    var adv := b.advances[a];
    var q := b.pools[adv.pool.value];
    var s := WaterfallSplit(b, a, applied, feeFirst);
    var left := adv.outstanding - applied;
    Moved(b, a,
          adv.(state := if left == 0 then Closed else PartiallyRecovered, outstanding := left, version := adv.version + 1),
          q.(utilised := q.utilised - applied), Rows(e, a, s, feeFirst),
          AppliedKey(e), EventType.RecoveryApplied, Amounts(applied, if adv.deferred then s.fee else 0))
  }

  /** The split of a recovery: all of it is placed, within what each component is still owed. */
  lemma SplitOfRecovery(b: Book, a: Id, applied: int, feeFirst: bool)
    requires a < |b.advances| && AdvanceOk(b, a) && IsLive(b.advances[a].state)
    requires 0 < applied <= b.advances[a].outstanding
    ensures var s := WaterfallSplit(b, a, applied, feeFirst);
            && s.fee + s.principal == applied && s.fee >= 0 && s.principal >= 0
            && Tally(b.allocs, OfAdvance(a, FeePart)) + s.fee <= b.advances[a].offer.fee
            && Tally(b.allocs, OfAdvance(a, PrincipalPart)) + s.principal <= b.advances[a].offer.disbursed
  {
    hide Tally;
    var adv := b.advances[a];
    var f, p := Tally(b.allocs, OfAdvance(a, FeePart)), Tally(b.allocs, OfAdvance(a, PrincipalPart));
    assert adv.outstanding + f + p - adv.offer.fee - p == adv.offer.disbursed - p;
    DivideCovers(applied, adv.offer.fee - f, adv.offer.disbursed - p, feeFirst);
  }

  /** A recovery within the outstanding always goes through, as Recovered. */
  lemma RecoveryGoesThrough(b: Book, e: Id, a: Id, applied: int, feeFirst: bool)
    requires Core(b) && a < |b.advances| && IsLive(b.advances[a].state)
    requires 0 < applied <= b.advances[a].outstanding
    requires !KeyTaken(b.journals, AppliedKey(e))
    ensures AdvanceOk(b, a)
    ensures ApplyToAdvance(b, e, a, applied, feeFirst) == Ok(Recovered(b, e, a, applied, feeFirst))
  {
    hide *;
    CoreFacts(b, a);
    var adv := b.advances[a];
    var s := WaterfallSplit(b, a, applied, feeFirst);
    SplitOfRecovery(b, a, applied, feeFirst);
    var left := adv.outstanding - applied;
    var to := if left == 0 then Closed else PartiallyRecovered;
    var b1 := b.(allocs := b.allocs + Rows(e, a, s, feeFirst));
    var b2 := b1.(advances := b1.advances[a := adv.(state := to, outstanding := left, version := adv.version + 1)]);
    RecoverySets(b, b1, a, to, left);
    Reduces(b2, adv.pool, applied);
    var q := b.pools[adv.pool.value];
    var b3 := b2.(pools := b2.pools[adv.pool.value := q.(utilised := q.utilised - applied)]);
    var v := Amounts(applied, if adv.deferred then s.fee else 0);
    GoodAmounts(EventType.RecoveryApplied, applied, if adv.deferred then s.fee else 0);
    Posts(b3, AppliedKey(e), EventType.RecoveryApplied, v);
    ApplyParts(b, e, a, applied, feeFirst, b2, b3);
    RecoveredIs(b, e, a, applied, feeFirst);
  }

  lemma GoodAmounts(e: EventType, amount: int, recognized: int)
    requires amount > 0 && recognized >= 0 && !e.AdvanceIssued?
    ensures GoodValues(e, Amounts(amount, recognized))
  {
  }

  lemma RecoverySets(b: Book, b1: Book, a: Id, to: AdvanceState, left: int)
    requires OneActive(b) && a < |b.advances| && IsLive(b.advances[a].state) && b1.advances == b.advances && left >= 0
    requires to == Closed || to == PartiallyRecovered
    ensures var adv := b.advances[a];
            SetOutstanding(b1, a, adv.version, adv.state, to, left)
            == Ok(b1.(advances := b1.advances[a := adv.(state := to, outstanding := left, version := adv.version + 1)]))
  {
    SlotIsOwn(b, a);
    assert SlotTaken(b1, a, b.advances[a].subscriber) == SlotTaken(b, a, b.advances[a].subscriber);
    Sets(b1, a, to, left);
    hide SetOutstanding, SlotTaken, OneActive;
  }

  /** The statements of a recovery in order. */
  lemma ApplyParts(b: Book, e: Id, a: Id, applied: int, feeFirst: bool, b2: Book, b3: Book)
    requires a < |b.advances|
    requires var s := WaterfallSplit(b, a, applied, feeFirst);
             var adv := b.advances[a];
             var left := adv.outstanding - applied;
             && s.fee + s.principal == applied
             && SetOutstanding(b.(allocs := b.allocs + Rows(e, a, s, feeFirst)), a, adv.version, adv.state,
                               if left == 0 then Closed else PartiallyRecovered, left) == Ok(b2)
             && ReduceUtilisation(b2, adv.pool, applied) == Ok(b3)
    ensures var s := WaterfallSplit(b, a, applied, feeFirst);
            ApplyToAdvance(b, e, a, applied, feeFirst)
            == PostEvent(b3, AppliedKey(e), EventType.RecoveryApplied, Amounts(applied, if b.advances[a].deferred then s.fee else 0))
  {
    hide WaterfallSplit, Rows, SetOutstanding, ReduceUtilisation, PostEvent;
  }

  lemma RecoveredIs(b: Book, e: Id, a: Id, applied: int, feeFirst: bool)
    requires a < |b.advances| && b.advances[a].pool.Some? && b.advances[a].pool.value < |b.pools|
    ensures var s := WaterfallSplit(b, a, applied, feeFirst);
            var adv, q := b.advances[a], b.pools[b.advances[a].pool.value];
            var left := adv.outstanding - applied;
            var v := Amounts(applied, if adv.deferred then s.fee else 0);
            Recovered(b, e, a, applied, feeFirst) == b.(
              allocs := b.allocs + Rows(e, a, s, feeFirst),
              advances := b.advances[a := adv.(state := if left == 0 then Closed else PartiallyRecovered,
                                               outstanding := left, version := adv.version + 1)],
              pools := b.pools[adv.pool.value := q.(utilised := q.utilised - applied)],
              journals := b.journals + [Journal(AppliedKey(e), Lines(Seeded(EventType.RecoveryApplied), v, CURRENCY))])
  {
    hide WaterfallSplit, Rows, Lines, Seeded;
  }

  lemma RecoveryFigures(b: Book, e: Id, a: Id, applied: int, feeFirst: bool)
    requires Core(b) && a < |b.advances| && AdvanceOk(b, a) && IsLive(b.advances[a].state)
    requires 0 < applied <= b.advances[a].outstanding
    ensures var b2 := Recovered(b, e, a, applied, feeFirst);
            var s := WaterfallSplit(b, a, applied, feeFirst);
            && AdvanceOk(b2, a)
            && Consistent(b, b2, a, -applied, if b.advances[a].deferred then -s.fee else 0)
            && s.fee >= 0
  {
    hide WaterfallSplit, Tally, Total, Rows, Lines, Seeded, Core, PoolsMatch, OneActive, LedgerMatches;
    CoreFacts(b, a);
    SplitOfRecovery(b, a, applied, feeFirst);
    TalliesAfter(b.allocs, e, a, WaterfallSplit(b, a, applied, feeFirst), feeFirst);
  }

  lemma RecoveryKeepsCore(b: Book, e: Id, a: Id, applied: int, feeFirst: bool)
    requires Core(b) && a < |b.advances| && IsLive(b.advances[a].state)
    requires 0 < applied <= b.advances[a].outstanding
    requires !KeyTaken(b.journals, AppliedKey(e))
    ensures AdvanceOk(b, a) && Core(Recovered(b, e, a, applied, feeFirst))
  {
    hide *;
    CoreFacts(b, a);
    var adv, q := b.advances[a], b.pools[b.advances[a].pool.value];
    var s := WaterfallSplit(b, a, applied, feeFirst);
    var left := adv.outstanding - applied;
    var to := if left == 0 then Closed else PartiallyRecovered;
    var v := Amounts(applied, if adv.deferred then s.fee else 0);
    RecoveryFigures(b, e, a, applied, feeFirst);
    RowsBelong(e, a, s, feeFirst);
    GoodAmounts(EventType.RecoveryApplied, applied, if adv.deferred then s.fee else 0);
    RecoveryMoves(b, e, a, applied, feeFirst);
    LiveIsOpen(adv.state);
    MovedKeepsCore(b, a, adv.(state := to, outstanding := left, version := adv.version + 1),
                   q.(utilised := q.utilised - applied), Rows(e, a, s, feeFirst), AppliedKey(e), EventType.RecoveryApplied, v);
  }

  lemma LiveIsOpen(s: AdvanceState)
    requires IsLive(s)
    ensures IsOpen(s)
  {
  }

  /** Recovered is a money step that moves the receivable by what was applied. */
  lemma RecoveryMoves(b: Book, e: Id, a: Id, applied: int, feeFirst: bool)
    requires a < |b.advances| && b.advances[a].pool.Some? && b.advances[a].pool.value < |b.pools|
    ensures var adv, q := b.advances[a], b.pools[b.advances[a].pool.value];
            var s := WaterfallSplit(b, a, applied, feeFirst);
            var left := adv.outstanding - applied;
            var v := Amounts(applied, if adv.deferred then s.fee else 0);
            && Recovered(b, e, a, applied, feeFirst)
               == Moved(b, a, adv.(state := if left == 0 then Closed else PartiallyRecovered, outstanding := left, version := adv.version + 1),
                        q.(utilised := q.utilised - applied), Rows(e, a, s, feeFirst), AppliedKey(e), EventType.RecoveryApplied, v)
            && ReceivableMove(EventType.RecoveryApplied, v) == -applied
            && -UnearnedMove(EventType.RecoveryApplied, v) == if adv.deferred then -s.fee else 0
  {
    hide WaterfallSplit, Rows, Moved;
  }

  // ------------------------------------------------------------------ reversal

  ghost function ClawedBack(b: Book, e: Id, a: Id, amount: int, r: Id, feeFirst: bool): Book
    requires a < |b.advances| && b.advances[a].pool.Some? && b.advances[a].pool.value < |b.pools|
  {
    var adv := b.advances[a];
    var q := b.pools[adv.pool.value];
    var s := BackSplit(b, e, amount, feeFirst);
    Moved(b, a,
          adv.(state := if adv.state.Closed? then PartiallyRecovered else adv.state,
               outstanding := adv.outstanding + amount, version := adv.version + 1),
          q.(utilised := q.utilised + amount), Rows(e, a, Split(-s.fee, -s.principal), !feeFirst),
          ReversedKey(e, r), EventType.RecoveryReversed, Amounts(amount, if adv.deferred then s.fee else 0))
  }

  /** Event `e` still holds at least `amount`, all of it on advance `a`. */
  predicate Reversible(b: Book, e: Id, a: Id, amount: int)
    requires a < |b.advances|
  {
    && (IsLive(b.advances[a].state) || b.advances[a].state.Closed?)
    && 0 < amount <= NetApplied(b, e)
    && 0 <= Tally(b.allocs, OfEvent(e, FeePart)) <= Tally(b.allocs, OfAdvance(a, FeePart))
    && 0 <= Tally(b.allocs, OfEvent(e, PrincipalPart)) <= Tally(b.allocs, OfAdvance(a, PrincipalPart))
  }

  lemma SplitOfReversal(b: Book, e: Id, a: Id, amount: int, feeFirst: bool)
    requires a < |b.advances| && AdvanceOk(b, a) && Reversible(b, e, a, amount)
    ensures var s := BackSplit(b, e, amount, feeFirst);
            && s.fee + s.principal == amount && s.fee >= 0 && s.principal >= 0
            && s.fee <= Tally(b.allocs, OfEvent(e, FeePart)) <= Tally(b.allocs, OfAdvance(a, FeePart))
            && s.principal <= Tally(b.allocs, OfEvent(e, PrincipalPart)) <= Tally(b.allocs, OfAdvance(a, PrincipalPart))
  {
    DivideCovers(amount, Tally(b.allocs, OfEvent(e, FeePart)), Tally(b.allocs, OfEvent(e, PrincipalPart)), !feeFirst);
    hide Divide, Tally;
  }

  /** What Restore leaves when nothing collides. */
  function Restored(b: Book, a: Id, rows: seq<Alloc>, amount: int): Book
    requires a < |b.advances| && b.advances[a].pool.Some? && b.advances[a].pool.value < |b.pools|
  {
    var adv := b.advances[a];
    var q := b.pools[adv.pool.value];
    b.(allocs := b.allocs + rows,
       advances := b.advances[a := adv.(state := if adv.state.Closed? then PartiallyRecovered else adv.state,
                                        outstanding := adv.outstanding + amount, version := adv.version + 1)],
       pools := b.pools[adv.pool.value := q.(utilised := q.utilised + amount)])
  }

  lemma RestoreGoesThrough(b: Book, a: Id, rows: seq<Alloc>, amount: int)
    requires OneActive(b) && a < |b.advances| && amount > 0 && b.advances[a].outstanding >= 0
    requires IsLive(b.advances[a].state) || b.advances[a].state.Closed?
    requires b.advances[a].pool.Some? && b.advances[a].pool.value < |b.pools| && b.pools[b.advances[a].pool.value].Fits()
    ensures var adv := b.advances[a];
            var q := b.pools[adv.pool.value];
            Restore(b, a, rows, amount) ==
              if adv.state.Closed? && SlotTaken(b, a, adv.subscriber) then Err(ConcurrentAdvance)
              else if q.reserved + q.utilised + amount > q.committed then Err(PoolOverAllocated)
              else Ok(Restored(b, a, rows, amount))
  {
    var adv := b.advances[a];
    if !adv.state.Closed? {
      SlotIsOwn(b, a);
    }
    var b1 := b.(allocs := b.allocs + rows);
    assert SlotTaken(b1, a, adv.subscriber) == SlotTaken(b, a, adv.subscriber);
    Sets(b1, a, if adv.state.Closed? then PartiallyRecovered else adv.state, adv.outstanding + amount);
    hide SlotTaken, SetOutstanding, OneActive;
  }

  /** A claw-back fails for two reasons only: the subscriber's place is taken again, or the pool lacks
      headroom. */
  lemma ClawBackGoesThrough(b: Book, e: Id, a: Id, amount: int, r: Id, feeFirst: bool)
    requires Core(b) && a < |b.advances| && Reversible(b, e, a, amount)
    requires !KeyTaken(b.journals, ReversedKey(e, r))
    ensures AdvanceOk(b, a)
    ensures var adv := b.advances[a];
            var q := b.pools[adv.pool.value];
            ClawBack(b, e, a, amount, r, feeFirst) ==
              if adv.state.Closed? && SlotTaken(b, a, adv.subscriber) then Err(ConcurrentAdvance)
              else if q.reserved + q.utilised + amount > q.committed then Err(PoolOverAllocated)
              else Ok(ClawedBack(b, e, a, amount, r, feeFirst))
  {
    hide *;
    CoreFacts(b, a);
    var adv := b.advances[a];
    var s := BackSplit(b, e, amount, feeFirst);
    SplitOfReversal(b, e, a, amount, feeFirst);
    ReversibleIs(b, e, a, amount);
    var rows := Rows(e, a, Split(-s.fee, -s.principal), !feeFirst);
    RestoreGoesThrough(b, a, rows, amount);
    var recognized := if adv.deferred then s.fee else 0;
    GoodAmounts(EventType.RecoveryReversed, amount, recognized);
    RestoredJournals(b, a, rows, amount);
    Posts(Restored(b, a, rows, amount), ReversedKey(e, r), EventType.RecoveryReversed, Amounts(amount, recognized));
    ClawedBackIs(b, e, a, amount, r, feeFirst);
    ClawBackParts(b, e, a, amount, r, feeFirst);
  }

  lemma ReversibleIs(b: Book, e: Id, a: Id, amount: int)
    requires a < |b.advances| && Reversible(b, e, a, amount)
    ensures (IsLive(b.advances[a].state) || b.advances[a].state.Closed?) && amount > 0
  {
  }

  lemma RestoredJournals(b: Book, a: Id, rows: seq<Alloc>, amount: int)
    requires a < |b.advances| && b.advances[a].pool.Some? && b.advances[a].pool.value < |b.pools|
    ensures Restored(b, a, rows, amount).journals == b.journals
  {
  }

  lemma ClawBackParts(b: Book, e: Id, a: Id, amount: int, r: Id, feeFirst: bool)
    requires a < |b.advances|
    ensures var s := BackSplit(b, e, amount, feeFirst);
            s.fee + s.principal >= amount ==>
              ClawBack(b, e, a, amount, r, feeFirst) ==
                match Restore(b, a, Rows(e, a, Split(-s.fee, -s.principal), !feeFirst), amount)
                case Err(x) => Err(x)
                case Ok(b1) => PostEvent(b1, ReversedKey(e, r), EventType.RecoveryReversed,
                                         Amounts(amount, if b.advances[a].deferred then s.fee else 0))
  {
    hide BackSplit, Restore, Rows, PostEvent;
  }

  lemma ClawedBackIs(b: Book, e: Id, a: Id, amount: int, r: Id, feeFirst: bool)
    requires a < |b.advances| && b.advances[a].pool.Some? && b.advances[a].pool.value < |b.pools|
    ensures var s := BackSplit(b, e, amount, feeFirst);
            var b1 := Restored(b, a, Rows(e, a, Split(-s.fee, -s.principal), !feeFirst), amount);
            var v := Amounts(amount, if b.advances[a].deferred then s.fee else 0);
            ClawedBack(b, e, a, amount, r, feeFirst)
            == b1.(journals := b1.journals + [Journal(ReversedKey(e, r), Lines(Seeded(EventType.RecoveryReversed), v, CURRENCY))])
  {
    hide BackSplit, Rows, Lines, Seeded;
  }

  lemma ClawBackFigures(b: Book, e: Id, a: Id, amount: int, r: Id, feeFirst: bool)
    requires Core(b) && a < |b.advances| && AdvanceOk(b, a) && Reversible(b, e, a, amount)
    requires var q := b.pools[b.advances[a].pool.value]; q.reserved + q.utilised + amount <= q.committed
    ensures var b2 := ClawedBack(b, e, a, amount, r, feeFirst);
            var s := BackSplit(b, e, amount, feeFirst);
            && AdvanceOk(b2, a)
            && Consistent(b, b2, a, amount, if b.advances[a].deferred then s.fee else 0)
            && s.fee >= 0
  {
    hide Divide, BackSplit, Tally, Total, Rows, Lines, Seeded, Core, PoolsMatch, OneActive, LedgerMatches;
    CoreFacts(b, a);
    SplitOfReversal(b, e, a, amount, feeFirst);
    var s := BackSplit(b, e, amount, feeFirst);
    TalliesAfter(b.allocs, e, a, Split(-s.fee, -s.principal), !feeFirst);
  }

  lemma ClawBackKeepsCore(b: Book, e: Id, a: Id, amount: int, r: Id, feeFirst: bool)
    requires Core(b) && a < |b.advances| && Reversible(b, e, a, amount)
    requires !KeyTaken(b.journals, ReversedKey(e, r))
    requires b.advances[a].state.Closed? ==> !SlotTaken(b, a, b.advances[a].subscriber)
    requires AdvanceOk(b, a) && var q := b.pools[b.advances[a].pool.value]; q.reserved + q.utilised + amount <= q.committed
    ensures Core(ClawedBack(b, e, a, amount, r, feeFirst))
  {
    hide *;
    CoreFacts(b, a);
    ReversibleIs(b, e, a, amount);
    var adv, q := b.advances[a], b.pools[b.advances[a].pool.value];
    var s := BackSplit(b, e, amount, feeFirst);
    var back := Split(-s.fee, -s.principal);
    var to := if adv.state.Closed? then PartiallyRecovered else adv.state;
    var v := Amounts(amount, if adv.deferred then s.fee else 0);
    ClawBackFigures(b, e, a, amount, r, feeFirst);
    RowsBelong(e, a, back, !feeFirst);
    GoodAmounts(EventType.RecoveryReversed, amount, if adv.deferred then s.fee else 0);
    ClawBackMoves(b, e, a, amount, r, feeFirst);
    if !adv.state.Closed? {
      LiveIsOpen(adv.state);
    }
    MovedKeepsCore(b, a, adv.(state := to, outstanding := adv.outstanding + amount, version := adv.version + 1),
                   q.(utilised := q.utilised + amount), Rows(e, a, back, !feeFirst), ReversedKey(e, r), EventType.RecoveryReversed, v);
  }

  /** ClawedBack is a money step that moves the receivable by what was taken back. */
  lemma ClawBackMoves(b: Book, e: Id, a: Id, amount: int, r: Id, feeFirst: bool)
    requires a < |b.advances| && b.advances[a].pool.Some? && b.advances[a].pool.value < |b.pools|
    ensures var adv, q := b.advances[a], b.pools[b.advances[a].pool.value];
            var s := BackSplit(b, e, amount, feeFirst);
            var v := Amounts(amount, if adv.deferred then s.fee else 0);
            && ClawedBack(b, e, a, amount, r, feeFirst)
               == Moved(b, a, adv.(state := if adv.state.Closed? then PartiallyRecovered else adv.state,
                                   outstanding := adv.outstanding + amount, version := adv.version + 1),
                        q.(utilised := q.utilised + amount), Rows(e, a, Split(-s.fee, -s.principal), !feeFirst),
                        ReversedKey(e, r), EventType.RecoveryReversed, v)
            && ReceivableMove(EventType.RecoveryReversed, v) == amount
            && -UnearnedMove(EventType.RecoveryReversed, v) == if adv.deferred then s.fee else 0
  {
    hide BackSplit, Rows, Moved;
  }

  // ------------------------------------------------------------------ write-off

  ghost function Crystallised(b: Book, w: Id, a: Id): Book
    requires a < |b.advances| && b.advances[a].pool.Some? && b.advances[a].pool.value < |b.pools|
  {
    var adv := b.advances[a];
    var q := b.pools[adv.pool.value];
    Moved(b, a, adv.(state := WrittenOff, outstanding := 0, version := adv.version + 1),
          q.(utilised := q.utilised - adv.outstanding), [], WriteOffKey(w), EventType.WriteOffPosted,
          Values(0, 0, adv.outstanding, 0, 0, if adv.deferred then FeeRemaining(b, a) else 0))
  }

  /** The statements of an approved write-off on a live advance always go through. */
  lemma WriteOffGoesThrough(b: Book, w: Id, a: Id)
    requires Core(b) && a < |b.advances| && IsLive(b.advances[a].state)
    requires !KeyTaken(b.journals, WriteOffKey(w))
    ensures AdvanceOk(b, a)
    ensures var adv := b.advances[a];
            var r2 := SetOutstanding(b, a, adv.version, adv.state, WrittenOff, 0);
            r2.Ok? &&
            var r3 := ReduceUtilisation(r2.value, adv.pool, adv.outstanding);
            r3.Ok? &&
            PostEvent(r3.value, WriteOffKey(w), EventType.WriteOffPosted,
                      Values(0, 0, adv.outstanding, 0, 0, if adv.deferred then FeeRemaining(b, a) else 0))
            == Ok(Crystallised(b, w, a))
  {
    var adv := b.advances[a];
    assert AdvanceOk(b, a);
    WeightBounded(b, UtilisedOn(adv.pool.value), a);
    var f := FeeRemaining(b, a);
    assert f >= 0;
    var b2 := b.(advances := b.advances[a := adv.(state := WrittenOff, outstanding := 0, version := adv.version + 1)]);
    assert SetOutstanding(b, a, adv.version, adv.state, WrittenOff, 0) == Ok(b2);
    var q := b.pools[adv.pool.value];
    hide Tally, Total, FeeRemaining;
    var b3 := b2.(pools := b2.pools[adv.pool.value := q.(utilised := q.utilised - adv.outstanding)]);
    assert ReduceUtilisation(b2, adv.pool, adv.outstanding) == Ok(b3);
    var v := Values(0, 0, adv.outstanding, 0, 0, if adv.deferred then f else 0);
    Posts(b3, WriteOffKey(w), EventType.WriteOffPosted, v);
    assert b.allocs + [] == b.allocs;
  }

  lemma WriteOffKeepsCore(b: Book, w: Id, a: Id)
    requires Core(b) && a < |b.advances| && IsLive(b.advances[a].state)
    requires !KeyTaken(b.journals, WriteOffKey(w))
    ensures AdvanceOk(b, a) && Core(Crystallised(b, w, a))
  {
    hide *;
    CoreFacts(b, a);
    var adv, q := b.advances[a], b.pools[b.advances[a].pool.value];
    var v := Values(0, 0, adv.outstanding, 0, 0, if adv.deferred then FeeRemaining(b, a) else 0);
    WriteOffFigures(b, w, a);
    LiveIsOpen(adv.state);
    MovedKeepsCore(b, a, adv.(state := WrittenOff, outstanding := 0, version := adv.version + 1),
                   q.(utilised := q.utilised - adv.outstanding), [], WriteOffKey(w), EventType.WriteOffPosted, v);
  }

  lemma WriteOffFigures(b: Book, w: Id, a: Id)
    requires a < |b.advances| && AdvanceOk(b, a) && IsLive(b.advances[a].state)
    requires var q := b.pools[b.advances[a].pool.value]; q.Fits() && b.advances[a].outstanding <= q.utilised
    ensures var adv, q := b.advances[a], b.pools[b.advances[a].pool.value];
            var v := Values(0, 0, adv.outstanding, 0, 0, if adv.deferred then FeeRemaining(b, a) else 0);
            var b2 := Crystallised(b, w, a);
            && b2 == Moved(b, a, adv.(state := WrittenOff, outstanding := 0, version := adv.version + 1),
                           q.(utilised := q.utilised - adv.outstanding), [], WriteOffKey(w), EventType.WriteOffPosted, v)
            && GoodValues(EventType.WriteOffPosted, v) && RowsOf([], a)
            && AdvanceOk(b2, a)
            && Consistent(b, b2, a, ReceivableMove(EventType.WriteOffPosted, v), -UnearnedMove(EventType.WriteOffPosted, v))
  {
    hide Tally, Lines, Seeded;
    assert b.allocs + [] == b.allocs;
  }
}
