/** Reversals: exactly when one is applied, parked or refused, and that each keeps the book. */
module BookReversal {
  import opened BookInvariant
  import opened BookMoney
  import opened BookReferences
  import opened BookSteps
  import opened BookTables
  import opened Common
  import opened Ledger
  import opened Templates

  // ------------------------------------------------------------------ applying one

  /** The book after `amount` of event `e` was clawed back under the reversal id `r`. */
  ghost function ReversedBook(b: Book, e: Id, a: Id, amount: int, r: Id, feeFirst: bool): Book
    requires a < |b.advances| && b.advances[a].pool.Some? && b.advances[a].pool.value < |b.pools| && e in b.events
  {
    var b1 := ClawedBack(b, e, a, amount, r, feeFirst);
    b1.(events := if amount == NetApplied(b, e) then b.events[e := b.events[e].(state := EventState.Reversed)] else b.events,
        reversals := b.reversals[r := Reversal(e, amount, b.advances[a].state.Closed?)])
  }

  /** A reversal of an allocated event that is new, within the event's net, and on a receivable that still
      exists. */
  predicate Claimable(b: Book, e: Id, amount: int, r: Id) {
    && e in b.events && b.events[e].state.Allocated? && r !in b.reversals
    && 0 < amount <= NetApplied(b, e)
    && var a := ReceivableAdvance(b.allocs, e);
       a.Some? && a.value < |b.advances| && !b.advances[a.value].state.WrittenOff?
  }

  lemma ClaimableIsReversible(b: Book, e: Id, amount: int, r: Id)
    requires Base(b) && Claimable(b, e, amount, r)
    ensures var a := ReceivableAdvance(b.allocs, e).value;
            && Reversible(b, e, a, amount) && AdvanceOk(b, a) && !KeyTaken(b.journals, ReversedKey(e, r))
            && forall i | 0 <= i < |b.allocs| :: b.allocs[i].event == e ==> b.allocs[i].advance == a
  {
    var a := ReceivableAdvance(b.allocs, e).value;
    ReceivableAdvanceIs(b.allocs, e);
    assert AdvanceOk(b, a);
    assert forall x | x in b.events :: EventOk(b, x);
    assert IsIssued(b.advances[a].state) by {
      var i :| 0 <= i < |b.allocs| && b.allocs[i].event == e && !b.allocs[i].component.WriteoffIncomePart?;
      assert RowOk(b, b.allocs[i]);
    }
    assert !KeyTaken(b.journals, ReversedKey(e, r)) by {
      assert forall i | 0 <= i < |b.journals| :: KeyOk(b, b.journals[i].key);
    }
    hide Tally, Core;
    EventWithinAdvance(b, e, a, FeePart);
    EventWithinAdvance(b, e, a, PrincipalPart);
  }

  /** Exactly when a reversal of an allocated event goes through, and every way it does not. */
  lemma ReversalOutcome(b: Book, e: Id, amount: int, r: Id, feeFirst: bool)
    requires Base(b) && e in b.events && b.events[e].state.Allocated? && amount > 0
    ensures Claimable(b, e, amount, r) ==>
              var a := ReceivableAdvance(b.allocs, e).value;
              AdvanceOk(b, a) &&
              var adv := b.advances[a];
              var q := b.pools[adv.pool.value];
              ApplyReversal(b, e, amount, r, feeFirst) ==
                if adv.state.Closed? && SlotTaken(b, a, adv.subscriber) then Err(ConcurrentAdvance)
                else if q.reserved + q.utilised + amount > q.committed then Err(PoolOverAllocated)
                else Ok(ReversedBook(b, e, a, amount, r, feeFirst))
    ensures !Claimable(b, e, amount, r) ==>
              ApplyReversal(b, e, amount, r, feeFirst) ==
                if r in b.reversals then
                  if b.reversals[r].original == e && b.reversals[r].amount == amount then Ok(b) else Err(DivergentReversal)
                else if ReceivableAdvance(b.allocs, e).None? then Err(NoReceivableAllocations)
                else if amount > NetApplied(b, e) then Err(ExceedsNetApplied)
                else Err(NotReversible)
  {
    hide *;
    BaseRows(b);
    ReceivableAdvanceIs(b.allocs, e);
    if Claimable(b, e, amount, r) {
      ClaimBounds(b, e, amount, r);
      ClaimableIsReversible(b, e, amount, r);
      var a := ReceivableAdvance(b.allocs, e).value;
      BaseParts(b);
      CoreFacts(b, a);
      ReversibleIs(b, e, a, amount);
      ClawBackGoesThrough(b, e, a, amount, r, feeFirst);
      ClawedBackFrame(b, e, a, amount, r, feeFirst);
      ClaimThrough(b, e, amount, r, feeFirst);
    } else {
      var a := ReceivableAdvance(b.allocs, e);
      if a.Some? {
        var i :| 0 <= i < |b.allocs| && b.allocs[i].event == e && !b.allocs[i].component.WriteoffIncomePart?;
        assert b.allocs[i].advance == a.value;
      }
      ClaimRefused(b, e, amount, r, feeFirst);
    }
  }

  lemma ClaimBounds(b: Book, e: Id, amount: int, r: Id)
    requires Claimable(b, e, amount, r)
    ensures ReceivableAdvance(b.allocs, e).Some? && ReceivableAdvance(b.allocs, e).value < |b.advances| && r !in b.reversals
  {
    hide NetApplied;
  }

  /** A claimable reversal is its claw-back, plus the event's state and its own record. */
  lemma ClaimThrough(b: Book, e: Id, amount: int, r: Id, feeFirst: bool)
    requires Claimable(b, e, amount, r)
    requires var a := ReceivableAdvance(b.allocs, e).value;
             && b.advances[a].pool.Some? && b.advances[a].pool.value < |b.pools|
             && (IsLive(b.advances[a].state) || b.advances[a].state.Closed?)
             && ClawedBack(b, e, a, amount, r, feeFirst).events == b.events
             && ClawedBack(b, e, a, amount, r, feeFirst).reversals == b.reversals
    ensures var a := ReceivableAdvance(b.allocs, e).value;
            ApplyReversal(b, e, amount, r, feeFirst) ==
              match ClawBack(b, e, a, amount, r, feeFirst)
              case Err(x) => Err(x)
              case Ok(b1) =>
                if b1 == ClawedBack(b, e, a, amount, r, feeFirst) then Ok(ReversedBook(b, e, a, amount, r, feeFirst))
                else ApplyReversal(b, e, amount, r, feeFirst)
  {
    hide ClawBack, ClawedBack, NetApplied;
  }

  lemma ClaimRefused(b: Book, e: Id, amount: int, r: Id, feeFirst: bool)
    requires !Claimable(b, e, amount, r) && e in b.events && b.events[e].state.Allocated? && amount > 0
    requires var a := ReceivableAdvance(b.allocs, e);
             a.Some? ==>
               exists i :: 0 <= i < |b.allocs| && b.allocs[i].event == e && !b.allocs[i].component.WriteoffIncomePart? && b.allocs[i].advance == a.value
    requires forall i | 0 <= i < |b.allocs| :: RowOk(b, b.allocs[i])
    ensures ApplyReversal(b, e, amount, r, feeFirst) ==
              if r in b.reversals then
                if b.reversals[r].original == e && b.reversals[r].amount == amount then Ok(b) else Err(DivergentReversal)
              else if ReceivableAdvance(b.allocs, e).None? then Err(NoReceivableAllocations)
              else if amount > NetApplied(b, e) then Err(ExceedsNetApplied)
              else Err(NotReversible)
  {
    hide ClawBack, NetApplied;
    var a := ReceivableAdvance(b.allocs, e);
    if a.Some? {
      var i :| 0 <= i < |b.allocs| && b.allocs[i].event == e && !b.allocs[i].component.WriteoffIncomePart? && b.allocs[i].advance == a.value;
      assert RowOk(b, b.allocs[i]);
    }
  }

  lemma ClawedBackFrame(b: Book, e: Id, a: Id, amount: int, r: Id, feeFirst: bool)
    requires a < |b.advances| && b.advances[a].pool.Some? && b.advances[a].pool.value < |b.pools|
    ensures var b1 := ClawedBack(b, e, a, amount, r, feeFirst);
            b1.events == b.events && b1.reversals == b.reversals && b1.parked == b.parked
            && b1.ingested == b.ingested && b1.suspense == b.suspense && b1.writeOffs == b.writeOffs
            && |b1.advances| == |b.advances|
  {
    hide BackSplit, Rows, Lines, Seeded;
  }

  /** The event's tallies after its rows are taken back; no other event notices. */
  lemma EventsAfterReversal(b: Book, e: Id, a: Id, s: Split, feeFirst: bool, x: Id, c: Component)
    ensures var t := Tally(b.allocs + Rows(e, a, s, feeFirst), OfEvent(x, c));
            t == Tally(b.allocs, OfEvent(x, c)) +
                 if x != e then 0 else match c case FeePart => s.fee case PrincipalPart => s.principal case _ => 0
  {
    TallyConcat(b.allocs, Rows(e, a, s, feeFirst), OfEvent(x, c));
    TallyRows(e, a, s, feeFirst, OfEvent(x, c));
  }

  lemma RowsOkAfter(b: Book, b2: Book, e: Id, a: Id, s: Split, feeFirst: bool)
    requires RowsOk(b) && b2.allocs == b.allocs + Rows(e, a, s, feeFirst)
    requires |b2.advances| == |b.advances| && b.events.Keys <= b2.events.Keys && e in b2.events && a < |b.advances|
    requires IsIssued(b2.advances[a].state) && !b.advances[a].state.WrittenOff?
    requires forall i | 0 <= i < |b.advances| && i != a :: b2.advances[i] == b.advances[i]
    requires forall i | 0 <= i < |b.allocs| :: b.allocs[i].event == e ==> b.allocs[i].advance == a
    ensures RowsOk(b2)
  {
    var n := |b.allocs|;
    forall i | 0 <= i < |b2.allocs| ensures RowOk(b2, b2.allocs[i]) {
      if i < n {
        assert b2.allocs[i] == b.allocs[i] && RowOk(b, b.allocs[i]);
      }
    }
    forall i | 0 <= i < |b2.allocs| ensures b2.allocs[i].event == e ==> b2.allocs[i].advance == a {
      if i < n {
        assert b2.allocs[i] == b.allocs[i];
      }
    }
    forall i, j | 0 <= i < |b2.allocs| && 0 <= j < |b2.allocs| && b2.allocs[i].event == b2.allocs[j].event
      ensures b2.allocs[i].advance == b2.allocs[j].advance
    {
      if b2.allocs[i].event != e {
        assert i < n && j < n && b2.allocs[i] == b.allocs[i] && b2.allocs[j] == b.allocs[j];
      }
    }
  }

  /** The reversed book, table by table. */
  lemma ReversedFields(b: Book, e: Id, a: Id, amount: int, r: Id, feeFirst: bool)
    requires a < |b.advances| && b.advances[a].pool.Some? && b.advances[a].pool.value < |b.pools| && e in b.events
    ensures var b2 := ReversedBook(b, e, a, amount, r, feeFirst);
            var s := BackSplit(b, e, amount, feeFirst);
            var v := Amounts(amount, if b.advances[a].deferred then s.fee else 0);
            && b2.allocs == b.allocs + Rows(e, a, Split(-s.fee, -s.principal), !feeFirst)
            && |b2.advances| == |b.advances|
            && (forall i | 0 <= i < |b.advances| && i != a :: b2.advances[i] == b.advances[i])
            && b2.advances[a] == b.advances[a].(
                 state := if b.advances[a].state.Closed? then PartiallyRecovered else b.advances[a].state,
                 outstanding := b.advances[a].outstanding + amount, version := b.advances[a].version + 1)
            && (var q := b.pools[b.advances[a].pool.value];
                b2.pools == b.pools[b.advances[a].pool.value := q.(utilised := q.utilised + amount)])
            && b2.events == (if amount == NetApplied(b, e) then b.events[e := b.events[e].(state := EventState.Reversed)] else b.events)
            && b2.reversals == b.reversals[r := Reversal(e, amount, b.advances[a].state.Closed?)]
            && b2.journals == b.journals + [Journal(ReversedKey(e, r), Lines(Seeded(EventType.RecoveryReversed), v, CURRENCY))]
            && b2.writeOffs == b.writeOffs && b2.parked == b.parked && b2.suspense == b.suspense && b2.ingested == b.ingested
  {
    hide BackSplit, Rows, Lines, Seeded, NetApplied;
  }

  lemma ReversalKeepsEvent(b: Book, e: Id, a: Id, amount: int, r: Id, feeFirst: bool, x: Id)
    requires a < |b.advances| && AdvanceOk(b, a) && Reversible(b, e, a, amount)
    requires e in b.events && b.events[e].state.Allocated? && x in b.events && EventOk(b, x)
    ensures var b2 := ReversedBook(b, e, a, amount, r, feeFirst);
            b2.events.Keys == b.events.Keys && EventOk(b2, x)
  {
    hide *;
    PoolOfOk(b, a);
    var b2 := ReversedBook(b, e, a, amount, r, feeFirst);
    var s := BackSplit(b, e, amount, feeFirst);
    var back := Split(-s.fee, -s.principal);
    SplitOfReversal(b, e, a, amount, feeFirst);
    ReversedFields(b, e, a, amount, r, feeFirst);
    EventsAfterReversal(b, e, a, back, !feeFirst, x, FeePart);
    EventsAfterReversal(b, e, a, back, !feeFirst, x, PrincipalPart);
    EventsAfterReversal(b, e, a, back, !feeFirst, x, WriteoffIncomePart);
    NetAppliedIs(b, e);
    EventOkIs(b, x);
    EventOkIs(b2, x);
    if x == e {
      FiguresAfter(b.events[x], Tally(b.allocs, OfEvent(x, FeePart)), Tally(b.allocs, OfEvent(x, PrincipalPart)),
                   Tally(b.allocs, OfEvent(x, WriteoffIncomePart)), s, amount);
    }
  }

  lemma NetAppliedIs(b: Book, e: Id)
    ensures NetApplied(b, e) == Tally(b.allocs, OfEvent(e, FeePart)) + Tally(b.allocs, OfEvent(e, PrincipalPart))
  {
    hide Tally;
  }

  lemma PoolOfOk(b: Book, a: Id)
    requires a < |b.advances| && AdvanceOk(b, a)
    ensures b.advances[a].pool.Some? && b.advances[a].pool.value < |b.pools| && b.advances[a].outstanding >= 0
  {
    hide Tally;
  }

  lemma EventOkIs(b: Book, e: Id)
    requires e in b.events
    ensures EventOk(b, e) == EventFigures(b.events[e], Tally(b.allocs, OfEvent(e, FeePart)),
                                          Tally(b.allocs, OfEvent(e, PrincipalPart)), Tally(b.allocs, OfEvent(e, WriteoffIncomePart)))
  {
  }

  lemma FiguresAfter(ev: Event, f: int, p: int, w: int, s: Split, amount: int)
    requires EventFigures(ev, f, p, w) && ev.state.Allocated?
    requires 0 <= s.fee <= f && 0 <= s.principal <= p && s.fee + s.principal == amount
    ensures EventFigures(if amount == f + p then ev.(state := EventState.Reversed) else ev, f - s.fee, p - s.principal, w)
  {
  }

  lemma ReversalKeepsReferences(b: Book, e: Id, a: Id, amount: int, r: Id, feeFirst: bool)
    requires a < |b.advances| && AdvanceOk(b, a) && e in b.events && amount > 0
    requires IsLive(b.advances[a].state) || b.advances[a].state.Closed?
    requires forall i | 0 <= i < |b.allocs| :: b.allocs[i].event == e ==> b.allocs[i].advance == a
    requires RowsOk(b) && KeysOk(b) && WriteOffsOk(b) && QueuesOk(b)
    ensures var b2 := ReversedBook(b, e, a, amount, r, feeFirst);
            RowsOk(b2) && KeysOk(b2) && WriteOffsOk(b2) && QueuesOk(b2)
  {
    hide *;
    PoolOfOk(b, a);
    var b2 := ReversedBook(b, e, a, amount, r, feeFirst);
    var s := BackSplit(b, e, amount, feeFirst);
    ReversedFields(b, e, a, amount, r, feeFirst);
    ReversedKeyOk(b2, e, r);
    assert b2.events.Keys == b.events.Keys;
    IssuedStates(b.advances[a].state, b2.advances[a].state);
    RowsOkAfter(b, b2, e, a, Split(-s.fee, -s.principal), !feeFirst);
    KeysAfter(b, b2, a, ReversedKey(e, r), Lines(Seeded(EventType.RecoveryReversed), Amounts(amount, if b.advances[a].deferred then s.fee else 0), CURRENCY));
    WriteOffsAfter(b, b2, a);
    QueuesAfter(b, b2, e, amount, r);
  }

  lemma ReversedKeyOk(b: Book, e: Id, r: Id)
    requires r in b.reversals
    ensures KeyOk(b, ReversedKey(e, r))
  {
  }

  lemma IssuedStates(x: AdvanceState, y: AdvanceState)
    requires IsLive(x) || x.Closed?
    requires y == (if x.Closed? then PartiallyRecovered else x) || y == Closed || y == PartiallyRecovered
    ensures IsIssued(x) && IsIssued(y) && !x.WrittenOff? && !y.WrittenOff?
  {
  }

  lemma QueuesAfter(b: Book, b2: Book, e: Id, amount: int, r: Id)
    requires QueuesOk(b) && b2.parked == b.parked && b2.suspense == b.suspense && b2.events.Keys == b.events.Keys
    requires e in b.events && amount > 0
    requires exists reopened: bool :: b2.reversals == b.reversals[r := Reversal(e, amount, reopened)]
    ensures QueuesOk(b2)
  {
  }

  /** Keys stay tied to what happened when an issued advance moves between issued states. */
  lemma KeysAfter(b: Book, b2: Book, a: Id, key: JournalKey, lines: seq<Line<Account>>)
    requires KeysOk(b) && |b2.advances| == |b.advances| && a < |b.advances|
    requires forall i | 0 <= i < |b.advances| && i != a :: b2.advances[i] == b.advances[i]
    requires IsIssued(b2.advances[a].state) && (IsIssued(b.advances[a].state) || key == IssuedKey(a))
    requires b2.journals == b.journals + [Journal(key, lines)] && KeyOk(b2, key)
    requires b.events.Keys <= b2.events.Keys && b.reversals.Keys <= b2.reversals.Keys && b2.writeOffs == b.writeOffs
    ensures KeysOk(b2)
  {
    var n := |b.journals|;
    forall i | 0 <= i < |b2.journals| ensures KeyOk(b2, b2.journals[i].key) {
      if i < n {
        assert b2.journals[i] == b.journals[i] && KeyOk(b, b.journals[i].key);
      }
    }
    forall k: JournalKey | KeyTaken(b.journals, k) ensures KeyTaken(b2.journals, k) {
      var i :| 0 <= i < n && b.journals[i].key == k;
      assert b2.journals[i].key == k;
    }
    assert b2.journals[n].key == key;
  }

  lemma WriteOffsAfter(b: Book, b2: Book, a: Id)
    requires WriteOffsOk(b) && |b2.advances| == |b.advances| && a < |b.advances| && b2.writeOffs == b.writeOffs
    requires forall i | 0 <= i < |b.advances| && i != a :: b2.advances[i] == b.advances[i]
    requires !b.advances[a].state.WrittenOff? && !b2.advances[a].state.WrittenOff?
    ensures WriteOffsOk(b2)
  {
    forall w | 0 <= w < |b2.writeOffs| ensures WriteOffOk(b2, w) {
      assert WriteOffOk(b, w);
    }
  }

  lemma ReversalKeepsBase(b: Book, e: Id, amount: int, r: Id, feeFirst: bool)
    requires Base(b) && Claimable(b, e, amount, r)
    ensures var a := ReceivableAdvance(b.allocs, e).value;
            AdvanceOk(b, a) &&
            var adv := b.advances[a];
            var q := b.pools[adv.pool.value];
            !(adv.state.Closed? && SlotTaken(b, a, adv.subscriber)) && q.reserved + q.utilised + amount <= q.committed ==>
              Base(ReversedBook(b, e, a, amount, r, feeFirst))
  {
    var a := ReceivableAdvance(b.allocs, e).value;
    ClaimableIsReversible(b, e, amount, r);
    var adv := b.advances[a];
    var q := b.pools[adv.pool.value];
    if !(adv.state.Closed? && SlotTaken(b, a, adv.subscriber)) && q.reserved + q.utilised + amount <= q.committed {
      ClawBackKeepsCore(b, e, a, amount, r, feeFirst);
      forall x | x in b.events
        ensures var b2 := ReversedBook(b, e, a, amount, r, feeFirst); b2.events.Keys == b.events.Keys && EventOk(b2, x)
      {
        ReversalKeepsEvent(b, e, a, amount, r, feeFirst, x);
      }
      ReversalKeepsReferences(b, e, a, amount, r, feeFirst);
      hide ClawedBack, Tally, Core, AdvanceOk, EventOk, RowsOk, KeysOk, WriteOffsOk, QueuesOk, SlotTaken, Reversible;
      CoreFrame(ClawedBack(b, e, a, amount, r, feeFirst), ReversedBook(b, e, a, amount, r, feeFirst));
    }
  }

  // ------------------------------------------------------------------ the parking queue

  /** A parked row keeps what it is; only its reason and whether it waits may change. */
  lemma ParkedRewrite(b: Book, k: Id, row: Parked)
    requires Base(b) && k < |b.parked|
    requires row.original == b.parked[k].original && row.reversal == b.parked[k].reversal && row.amount == b.parked[k].amount
    ensures Base(b.(parked := b.parked[k := row]))
  {
    var b2 := b.(parked := b.parked[k := row]);
    hide Tally, Core;
    CoreFrame(b, b2);
    ReferencesFrame(b, b2);
  }

  /** Nothing else refers to the parking queue. */
  lemma ReferencesFrame(b: Book, b2: Book)
    requires b2 == b.(parked := b2.parked)
    requires (forall e | e in b.events :: EventOk(b, e)) && RowsOk(b) && KeysOk(b) && WriteOffsOk(b)
    ensures (forall e | e in b2.events :: EventOk(b2, e)) && RowsOk(b2) && KeysOk(b2) && WriteOffsOk(b2)
  {
    hide Tally;
    forall e | e in b2.events ensures EventOk(b2, e) {
      assert EventOk(b, e);
    }
    forall i | 0 <= i < |b2.allocs| ensures RowOk(b2, b2.allocs[i]) {
      assert RowOk(b, b.allocs[i]);
    }
    forall i | 0 <= i < |b2.journals| ensures KeyOk(b2, b2.journals[i].key) {
      assert KeyOk(b, b.journals[i].key);
    }
    forall w | 0 <= w < |b2.writeOffs| ensures WriteOffOk(b2, w) {
      assert WriteOffOk(b, w);
    }
  }

  lemma ParkKeepsBase(b: Book, p: Parked)
    requires Base(b) && p.amount > 0
    ensures Base(Park(b, p))
  {
    hide *;
    BaseParts(b);
    ParkFrame(b, p);
    CoreFrame(b, Park(b, p));
    ReferencesFrame(b, Park(b, p));
    BaseWhole(Park(b, p));
  }

  lemma ParkFrame(b: Book, p: Parked)
    requires QueuesOk(b) && p.amount > 0
    ensures Park(b, p) == b.(parked := Park(b, p).parked) && QueuesOk(Park(b, p))
  {
  }

  lemma {:induction false} FindParkedIs(parked: seq<Parked>, e: Id)
    ensures match FindParked(parked, e)
            case None => forall k | 0 <= k < |parked| :: !(parked[k].original == e && parked[k].waiting)
            case Some(k) => k < |parked| && parked[k].original == e && parked[k].waiting
  {
    if parked != [] {
      FindParkedIs(parked[..|parked| - 1], e);
    }
  }

  /** A successful reversal keeps the book and touches no table key and no parked row. */
  lemma AppliedKeepsBase(b: Book, e: Id, amount: int, r: Id, feeFirst: bool)
    requires Base(b) && e in b.events && b.events[e].state.Allocated? && amount > 0
    requires ApplyReversal(b, e, amount, r, feeFirst).Ok?
    ensures var b1 := ApplyReversal(b, e, amount, r, feeFirst).value;
            && Base(b1) && b1.events.Keys == b.events.Keys && b1.ingested == b.ingested && b1.parked == b.parked
            && r in b1.reversals && b1.reversals[r].original == e && b1.reversals[r].amount == amount
  {
    ReversalOutcome(b, e, amount, r, feeFirst);
    if Claimable(b, e, amount, r) {
      ReversalKeepsBase(b, e, amount, r, feeFirst);
      ReversedKeys(b, e, ReceivableAdvance(b.allocs, e).value, amount, r, feeFirst);
    }
    hide *;
  }

  lemma ReversedKeys(b: Book, e: Id, a: Id, amount: int, r: Id, feeFirst: bool)
    requires a < |b.advances| && b.advances[a].pool.Some? && b.advances[a].pool.value < |b.pools| && e in b.events
    ensures var b1 := ReversedBook(b, e, a, amount, r, feeFirst);
            && b1.events.Keys == b.events.Keys && b1.ingested == b.ingested && b1.parked == b.parked
            && r in b1.reversals && b1.reversals[r].original == e && b1.reversals[r].amount == amount
  {
    ReversedFields(b, e, a, amount, r, feeFirst);
    hide ReversedBook, NetApplied;
  }

  lemma ParkedPositive(b: Book, k: Id)
    requires Base(b) && k < |b.parked|
    ensures b.parked[k].amount > 0
  {
    hide Core, EventOk, RowsOk, KeysOk, WriteOffsOk;
  }

  lemma TryParkedKeepsBase(b: Book, k: Id, e: Id, feeFirst: bool)
    requires Base(b) && k < |b.parked| && e in b.events && b.events[e].state.Allocated?
    requires TryParked(b, k, e, feeFirst).Ok?
    ensures var b1 := TryParked(b, k, e, feeFirst).value;
            Base(b1) && b1.events.Keys == b.events.Keys && b1.ingested == b.ingested
  {
    hide ApplyReversal, Base, RowOk, QueuesOk;
    var p := b.parked[k];
    ParkedPositive(b, k);
    var res := ApplyReversal(b, e, p.amount, p.reversal, feeFirst);
    if res.Ok? {
      AppliedKeepsBase(b, e, p.amount, p.reversal, feeFirst);
      ParkedRewrite(res.value, k, p.(waiting := false));
    } else {
      ParkedRewrite(b, k, p.(reason := SubscriberHasOpenAdvance));
      ParkedRewrite(b, k, p.(reason := PoolHeadroom));
    }
  }

  lemma ReverseKeepsInv(b: Book, r: Id, e: Id, amount: int, feeFirst: bool)
    requires Inv(b) && Reverse(b, r, e, amount, feeFirst).Ok?
    ensures Inv(Reverse(b, r, e, amount, feeFirst).value.0)
  {
    hide Base, ApplyReversal;
    if amount > 0 && r !in b.reversals {
      if e !in b.events {
        ParkKeepsBase(b, Parked(e, r, amount, true, OriginalUnseen));
      } else if !b.events[e].state.Allocated? {
        ParkKeepsBase(b, Parked(e, r, amount, true, OriginalNotAllocated));
      } else {
        var res := ApplyReversal(b, e, amount, r, feeFirst);
        if res.Ok? {
          AppliedKeepsBase(b, e, amount, r, feeFirst);
          var found := FindParked(res.value.parked, e);
          FindParkedIs(res.value.parked, e);
          if found.Some? {
            ParkedRewrite(res.value, found.value, res.value.parked[found.value].(waiting := false));
          }
        } else {
          CollisionKeepsBase(b, Parked(e, r, amount, true, SubscriberHasOpenAdvance));
          CollisionKeepsBase(b, Parked(e, r, amount, true, PoolHeadroom));
        }
      }
    }
  }

  lemma CollisionKeepsBase(b: Book, p: Parked)
    requires Base(b) && p.amount > 0
    ensures var b1 := Park(b, p);
            && Base(b1) && b1.events == b.events && b1.ingested == b.ingested
            && var k := FindParked(b1.parked, p.original);
               k.Some? ==> k.value < |b1.parked| && Base(SetParkReason(b1, k.value, p.reason))
  {
    var b1 := Park(b, p);
    ParkKeepsBase(b, p);
    FindParkedIs(b1.parked, p.original);
    var k := FindParked(b1.parked, p.original);
    if k.Some? {
      ParkedRewrite(b1, k.value, b1.parked[k.value].(reason := p.reason));
    }
    hide Base;
  }

  lemma RetryKeepsInv(b: Book, k: Id, feeFirst: bool)
    requires Inv(b) && RetryParked(b, k, feeFirst).Ok?
    ensures Inv(RetryParked(b, k, feeFirst).value)
  {
    hide Base, TryParked;
    var p := b.parked[k];
    if p.original !in b.events {
      ParkedRewrite(b, k, p.(reason := OriginalUnseen));
    } else if !b.events[p.original].state.Allocated? {
      ParkedRewrite(b, k, p.(reason := OriginalNotAllocated));
    } else {
      TryParkedKeepsBase(b, k, p.original, feeFirst);
    }
  }
}
