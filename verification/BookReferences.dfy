/** How the rows of the book refer to each other, and the facts drawn from it. */
module BookReferences {
  import opened BookInvariant
  import opened BookSteps
  import opened BookTables
  import opened Common
  import opened Ledger
  import opened Templates

  /** The receivable was recognised: live, paid or written off. */
  predicate IsIssued(s: AdvanceState) { IsLive(s) || s.Closed? || s.WrittenOff? }

  /** Reversals never take an event below zero, nor allocations above what it brought; an event that did
      not reach the book has no net rows, a reversed one nothing left to reverse. */
  predicate EventOk(b: Book, e: Id)
    requires e in b.events
  {
    EventFigures(b.events[e], Tally(b.allocs, OfEvent(e, FeePart)), Tally(b.allocs, OfEvent(e, PrincipalPart)),
                 Tally(b.allocs, OfEvent(e, WriteoffIncomePart)))
  }

  predicate EventFigures(ev: Event, fee: int, principal: int, income: int) {
    && ev.amount > 0 && !ev.state.Pending?
    && fee >= 0 && principal >= 0 && income >= 0 && fee + principal + income <= ev.amount
    && (ev.state.Quarantined? || ev.state.Unmatched? ==> fee + principal + income == 0)
    && (ev.state.Reversed? ==> fee + principal == 0)
  }

  predicate RowOk(b: Book, r: Alloc) {
    && r.event in b.events && r.advance < |b.advances| && r.amount != 0
    && if r.component.WriteoffIncomePart? then b.advances[r.advance].state.WrittenOff?
       else IsIssued(b.advances[r.advance].state)
  }

  /** All rows of one event belong to one advance. */
  predicate OneAdvancePerEvent(allocs: seq<Alloc>) {
    forall i, j | 0 <= i < |allocs| && 0 <= j < |allocs| :: allocs[i].event == allocs[j].event ==> allocs[i].advance == allocs[j].advance
  }

  predicate RowsOk(b: Book) {
    (forall i | 0 <= i < |b.allocs| :: RowOk(b, b.allocs[i])) && OneAdvancePerEvent(b.allocs)
  }

  predicate KeyOk(b: Book, k: JournalKey) {
    match k
    case IssuedKey(a) => a < |b.advances| && IsIssued(b.advances[a].state)
    case AppliedKey(e) => e in b.events
    case SuspenseKey(e) => e in b.events
    case QuarantineKey(e) => e in b.events
    case IncomeKey(e) => e in b.events
    case ReversedKey(e, r) => r in b.reversals
    case WriteOffKey(w) => w < |b.writeOffs| && b.writeOffs[w].state.WoPosted?
  }

  /** Every journal belongs to something that happened, and issues and posted write-offs have theirs. */
  ghost predicate KeysOk(b: Book) {
    && (forall i | 0 <= i < |b.journals| :: KeyOk(b, b.journals[i].key))
    && (forall a | 0 <= a < |b.advances| :: IsIssued(b.advances[a].state) ==> KeyTaken(b.journals, IssuedKey(a)))
    && (forall w | 0 <= w < |b.writeOffs| :: b.writeOffs[w].state.WoPosted? ==> KeyTaken(b.journals, WriteOffKey(w)))
  }

  /** A decided write-off was decided by someone other than its maker; a posted one wrote its advance off. */
  predicate WriteOffOk(b: Book, w: Id)
    requires w < |b.writeOffs|
  {
    var wo := b.writeOffs[w];
    && wo.advance < |b.advances|
    && wo.principal >= 0 && wo.fee >= 0
    && !wo.state.WoApproved?
    && (wo.state.WoRequested? <==> wo.approvedBy.None?)
    && (wo.approvedBy.Some? ==> wo.approvedBy.value != wo.requestedBy)
    && (wo.state.WoPosted? ==> b.advances[wo.advance].state.WrittenOff?)
  }

  predicate WriteOffsOk(b: Book) {
    && (forall w | 0 <= w < |b.writeOffs| :: WriteOffOk(b, w))
    && (forall v, w | 0 <= v < w < |b.writeOffs| ::
          b.writeOffs[v].advance == b.writeOffs[w].advance ==> b.writeOffs[v].state.WoRejected? || b.writeOffs[w].state.WoRejected?)
    && (forall a | 0 <= a < |b.advances| && b.advances[a].state.WrittenOff? ::
          exists w | 0 <= w < |b.writeOffs| :: b.writeOffs[w].advance == a && b.writeOffs[w].state.WoPosted?)
  }

  predicate QueuesOk(b: Book) {
    && (forall k | 0 <= k < |b.parked| :: b.parked[k].amount > 0)
    && (forall k, l | 0 <= k < l < |b.parked| ::
          b.parked[k].original != b.parked[l].original && b.parked[k].reversal != b.parked[l].reversal)
    && (forall r | r in b.reversals :: b.reversals[r].amount > 0 && b.reversals[r].original in b.events)
    && (forall e | e in b.suspense :: e in b.events && b.suspense[e] > 0)
  }

  /** Everything but the recovery idempotency records, which an ingest completes last. */
  ghost predicate Base(b: Book) {
    && Core(b)
    && (forall e | e in b.events :: EventOk(b, e))
    && RowsOk(b)
    && KeysOk(b)
    && WriteOffsOk(b)
    && QueuesOk(b)
  }

  /** The invariant of every committed state. */
  ghost predicate Inv(b: Book) {
    Base(b) && b.ingested.Keys == b.events.Keys
  }

  lemma BaseRows(b: Book)
    requires Base(b)
    ensures OneAdvancePerEvent(b.allocs) && QueuesOk(b) && forall i | 0 <= i < |b.allocs| :: RowOk(b, b.allocs[i])
  {
    hide Core, KeysOk, WriteOffsOk, EventOk;
  }

  lemma BaseParts(b: Book)
    requires Base(b)
    ensures Core(b) && (forall e | e in b.events :: EventOk(b, e)) && RowsOk(b) && KeysOk(b) && WriteOffsOk(b) && QueuesOk(b)
  {
    hide Core, EventOk, RowsOk, KeysOk, WriteOffsOk, QueuesOk;
  }

  lemma BaseWhole(b: Book)
    requires Core(b) && (forall e | e in b.events :: EventOk(b, e)) && RowsOk(b) && KeysOk(b) && WriteOffsOk(b) && QueuesOk(b)
    ensures Base(b)
  {
    hide Core, EventOk, RowsOk, KeysOk, WriteOffsOk, QueuesOk;
  }

  // ------------------------------------------------------------------ per event within per advance

  /** Net rows of advance `a` and component `c` whose event lies in `es`. */
  function TallyIn(allocs: seq<Alloc>, a: Id, c: Component, es: set<Id>): int {
    if allocs == [] then 0
    else
      var r := allocs[|allocs| - 1];
      TallyIn(allocs[..|allocs| - 1], a, c, es)
      + if r.advance == a && r.component == c && r.event in es then r.amount else 0
  }

  lemma {:induction false} TallyInSplit(allocs: seq<Alloc>, a: Id, c: Component, es: set<Id>, e: Id)
    requires e in es
    ensures TallyIn(allocs, a, c, es) == TallyIn(allocs, a, c, es - {e}) + TallyIn(allocs, a, c, {e})
  {
    if allocs != [] {
      TallyInSplit(allocs[..|allocs| - 1], a, c, es, e);
    }
  }

  /** An event's rows are all on one advance, so its part of any advance is its whole or nothing. */
  lemma {:induction false} TallyInOne(allocs: seq<Alloc>, a: Id, c: Component, e: Id)
    requires OneAdvancePerEvent(allocs)
    ensures TallyIn(allocs, a, c, {e}) == Tally(allocs, OfEvent(e, c)) || TallyIn(allocs, a, c, {e}) == 0
    ensures (forall i | 0 <= i < |allocs| :: allocs[i].event == e ==> allocs[i].advance == a)
            ==> TallyIn(allocs, a, c, {e}) == Tally(allocs, OfEvent(e, c))
    ensures (forall i | 0 <= i < |allocs| :: allocs[i].event == e ==> allocs[i].advance != a)
            ==> TallyIn(allocs, a, c, {e}) == 0
  {
    if allocs != [] {
      var n := |allocs| - 1;
      TallyInOne(allocs[..n], a, c, e);
      if exists i :: 0 <= i < n && allocs[i].event == e {
        var i :| 0 <= i < n && allocs[i].event == e;
        assert allocs[..n][i] == allocs[i];
        if allocs[i].advance == a {
          assert forall j | 0 <= j < n :: allocs[..n][j].event == e ==> allocs[..n][j].advance == a;
        } else {
          assert forall j | 0 <= j < n :: allocs[..n][j].event == e ==> allocs[..n][j].advance != a;
        }
      } else {
        NoRowsNoTally(allocs[..n], e, c);
      }
    }
  }

  lemma {:induction false} NoRowsNoTally(allocs: seq<Alloc>, e: Id, c: Component)
    requires forall i | 0 <= i < |allocs| :: allocs[i].event != e
    ensures Tally(allocs, OfEvent(e, c)) == 0 && ReceivableAdvance(allocs, e).None?
  {
    if allocs != [] {
      NoRowsNoTally(allocs[..|allocs| - 1], e, c);
    }
  }

  lemma {:induction false} TallyInNonNegative(allocs: seq<Alloc>, a: Id, c: Component, es: set<Id>)
    requires OneAdvancePerEvent(allocs)
    requires forall e | e in es :: Tally(allocs, OfEvent(e, c)) >= 0
    ensures TallyIn(allocs, a, c, es) >= 0
    decreases es
  {
    if es == {} {
      TallyInEmpty(allocs, a, c);
    } else {
      var e :| e in es;
      TallyInSplit(allocs, a, c, es, e);
      TallyInOne(allocs, a, c, e);
      TallyInNonNegative(allocs, a, c, es - {e});
    }
  }

  lemma {:induction false} TallyInEmpty(allocs: seq<Alloc>, a: Id, c: Component)
    ensures TallyIn(allocs, a, c, {}) == 0
  {
    if allocs != [] {
      TallyInEmpty(allocs[..|allocs| - 1], a, c);
    }
  }

  lemma {:induction false} TallyInAll(allocs: seq<Alloc>, a: Id, c: Component, es: set<Id>)
    requires forall i | 0 <= i < |allocs| :: allocs[i].event in es
    ensures TallyIn(allocs, a, c, es) == Tally(allocs, OfAdvance(a, c))
  {
    if allocs != [] {
      TallyInAll(allocs[..|allocs| - 1], a, c, es);
    }
  }

  /** One event's net share of an advance never passes the advance's own net: taking an event's rows back
      cannot push the recovered amount below zero. */
  lemma EventWithinAdvance(b: Book, e: Id, a: Id, c: Component)
    requires RowsOk(b) && forall x | x in b.events :: Tally(b.allocs, OfEvent(x, c)) >= 0
    requires e in b.events
    requires forall i | 0 <= i < |b.allocs| :: b.allocs[i].event == e ==> b.allocs[i].advance == a
    ensures 0 <= Tally(b.allocs, OfEvent(e, c)) <= Tally(b.allocs, OfAdvance(a, c))
  {
    var es := b.events.Keys;
    TallyInAll(b.allocs, a, c, es);
    TallyInSplit(b.allocs, a, c, es, e);
    TallyInOne(b.allocs, a, c, e);
    TallyInNonNegative(b.allocs, a, c, es - {e});
  }

  /** The advance a reversal finds carries every row of the event. */
  lemma {:induction false} ReceivableAdvanceIs(allocs: seq<Alloc>, e: Id)
    requires OneAdvancePerEvent(allocs)
    ensures match ReceivableAdvance(allocs, e)
            case None => Tally(allocs, OfEvent(e, FeePart)) == Tally(allocs, OfEvent(e, PrincipalPart)) == 0
            case Some(a) =>
              && (forall i | 0 <= i < |allocs| :: allocs[i].event == e ==> allocs[i].advance == a)
              && (exists i :: 0 <= i < |allocs| && allocs[i].event == e && !allocs[i].component.WriteoffIncomePart?)
  {
    if allocs != [] {
      var n := |allocs| - 1;
      assert forall i | 0 <= i < n :: allocs[..n][i] == allocs[i];
      ReceivableAdvanceIs(allocs[..n], e);
      var rest := ReceivableAdvance(allocs[..n], e);
      if rest.Some? {
        var i :| 0 <= i < n && allocs[..n][i].event == e && !allocs[..n][i].component.WriteoffIncomePart?;
        assert allocs[i].event == e;
      }
    }
  }

  // ------------------------------------------------------------------ frames

  lemma TotalSame(b: Book, b2: Book, m: Measure)
    requires b2.advances == b.advances
    requires forall a: Id :: Tally(b2.allocs, OfAdvance(a, FeePart)) == Tally(b.allocs, OfAdvance(a, FeePart))
    ensures Total(b2, m) == Total(b, m)
  {
    hide Tally;
    assert Column(b2, m) == Column(b, m);
  }

  /** The cross-checks see pools, advances, journals and the receivable allocations only. */
  lemma CoreFrame(b: Book, b2: Book)
    requires Core(b) && b2.pools == b.pools && b2.advances == b.advances && b2.journals == b.journals
    requires forall a: Id :: Tally(b2.allocs, OfAdvance(a, FeePart)) == Tally(b.allocs, OfAdvance(a, FeePart))
    requires forall a: Id :: Tally(b2.allocs, OfAdvance(a, PrincipalPart)) == Tally(b.allocs, OfAdvance(a, PrincipalPart))
    ensures Core(b2)
  {
    hide Tally, Net;
    forall m: Measure ensures Total(b2, m) == Total(b, m) {
      TotalSame(b, b2, m);
    }
    forall a | 0 <= a < |b2.advances| ensures AdvanceOk(b2, a) {
      assert AdvanceOk(b, a);
    }
    hide Total, AdvanceOk;
  }

  /** A journal that moves neither cross-checked account. */
  lemma NeutralJournal(b: Book, key: JournalKey, e: EventType, v: Values)
    requires Core(b) && !KeyTaken(b.journals, key) && GoodValues(e, v)
    requires ReceivableMove(e, v) == UnearnedMove(e, v) == 0
    ensures Core(b.(journals := b.journals + [Journal(key, Lines(Seeded(e), v, CURRENCY))]))
  {
    var j := Journal(key, Lines(Seeded(e), v, CURRENCY));
    var b2 := b.(journals := b.journals + [j]);
    SeededJournal(e, v, CURRENCY);
    assert b2.journals[..|b.journals|] == b.journals;
    hide Tally, Lines, Seeded, GoodValues, Accepted, Net, Movement;
    forall m: Measure ensures Total(b2, m) == Total(b, m) {
      TotalSame(b, b2, m);
    }
    forall a | 0 <= a < |b2.advances| ensures AdvanceOk(b2, a) {
      assert AdvanceOk(b, a);
    }
    hide Total, AdvanceOk;
    JournalsKept(b, b2, j);
  }

  lemma {:induction false} IncomeRowNeutral(allocs: seq<Alloc>, r: Alloc, a: Id)
    requires r.component.WriteoffIncomePart?
    ensures Tally(allocs + [r], OfAdvance(a, FeePart)) == Tally(allocs, OfAdvance(a, FeePart))
    ensures Tally(allocs + [r], OfAdvance(a, PrincipalPart)) == Tally(allocs, OfAdvance(a, PrincipalPart))
  {
    assert (allocs + [r])[..|allocs|] == allocs;
  }

  /** Rows of another event leave an event's tallies alone. */
  lemma {:induction false} OtherEventRows(allocs: seq<Alloc>, rows: seq<Alloc>, e: Id, c: Component)
    requires forall i | 0 <= i < |rows| :: rows[i].event != e
    ensures Tally(allocs + rows, OfEvent(e, c)) == Tally(allocs, OfEvent(e, c))
  {
    TallyConcat(allocs, rows, OfEvent(e, c));
    NoRowsNoTally(rows, e, c);
  }
}
