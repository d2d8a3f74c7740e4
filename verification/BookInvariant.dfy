/** What every reachable state of the credit book satisfies, and how one money step keeps its sums. */
module BookInvariant {
  import opened BookTables
  import opened BookSteps
  import opened Common
  import opened Ledger
  import opened Seqs
  import opened Templates

  // ------------------------------------------------------------------ sums over the advances

  /** The four sums the book is cross-checked with. */
  datatype Measure = UtilisedOn(pool: Id) | ReservedOn(pool: Id) | ReceivableOwed | FeeUnearned

  /** What one advance contributes to a sum. */
  function Weight(b: Book, m: Measure, i: Id): int
    requires i < |b.advances|
  {
    var adv := b.advances[i];
    match m
    case UtilisedOn(p) => if IsLive(adv.state) && adv.pool == Some(p) then adv.outstanding else 0
    case ReservedOn(p) => if IsPending(adv.state) && adv.pool == Some(p) then adv.outstanding else 0
    case ReceivableOwed => if IsLive(adv.state) then adv.outstanding else 0
    case FeeUnearned =>
      if IsLive(adv.state) && adv.deferred then adv.offer.fee - Tally(b.allocs, OfAdvance(i, FeePart)) else 0
  }

  function Column(b: Book, m: Measure): seq<int> {
    seq(|b.advances|, i requires 0 <= i < |b.advances| => Weight(b, m, i))
  }

  function Total(b: Book, m: Measure): int {
    Sum(Column(b, m))
  }

  // ------------------------------------------------------------------ the invariant

  ghost predicate PoolsMatch(b: Book) {
    forall p | 0 <= p < |b.pools| ::
      && b.pools[p].Fits()
      && b.pools[p].utilised == Total(b, UtilisedOn(p))
      && b.pools[p].reserved == Total(b, ReservedOn(p))
  }

  /** Recovered so far never passes what each component is worth, and what is outstanding is the repayment
      less the net allocations. */
  predicate AdvanceOk(b: Book, a: Id)
    requires a < |b.advances|
  {
    var adv := b.advances[a];
    var f, p := Tally(b.allocs, OfAdvance(a, FeePart)), Tally(b.allocs, OfAdvance(a, PrincipalPart));
    && adv.pool.Some? && adv.pool.value < |b.pools|
    && adv.attempt.Some?
    && 0 <= f <= adv.offer.fee
    && 0 <= p <= adv.offer.disbursed
    && match adv.state
       case PendingFulfilment => f == p == 0 && adv.outstanding == adv.offer.repayment
       case FulfilmentUnknown => f == p == 0 && adv.outstanding == adv.offer.repayment
       case FulfilmentFailed => f == p == 0 && adv.outstanding == adv.offer.repayment
       case Active => adv.outstanding == adv.offer.repayment - f - p && adv.outstanding > 0
       case PartiallyRecovered => adv.outstanding == adv.offer.repayment - f - p && adv.outstanding > 0
       case Closed => adv.outstanding == adv.offer.repayment - f - p && adv.outstanding == 0
       case WrittenOff => adv.outstanding == 0
       case _ => false
  }

  ghost predicate OneActive(b: Book) {
    forall i, j | 0 <= i < j < |b.advances| ::
      IsOpen(b.advances[i].state) && IsOpen(b.advances[j].state) ==> b.advances[i].subscriber != b.advances[j].subscriber
  }

  ghost predicate LedgerMatches(b: Book) {
    && AccountBalance(b.journals, SubscriberReceivable, CURRENCY) == Total(b, ReceivableOwed)
    && -AccountBalance(b.journals, UnearnedFee, CURRENCY) == Total(b, FeeUnearned)
  }

  ghost predicate JournalsBalance(b: Book) {
    && UniqueKeys(b.journals)
    && forall i | 0 <= i < |b.journals| :: forall c: string :: Net(b.journals[i].lines, c) == 0
  }

  ghost predicate Core(b: Book) {
    && PoolsMatch(b)
    && (forall a | 0 <= a < |b.advances| :: AdvanceOk(b, a))
    && OneActive(b)
    && LedgerMatches(b)
    && JournalsBalance(b)
  }

  // ------------------------------------------------------------------ allocation rows

  lemma {:induction false} TallyConcat(x: seq<Alloc>, y: seq<Alloc>, f: Filter)
    ensures Tally(x + y, f) == Tally(x, f) + Tally(y, f)
  {
    if y == [] {
      assert x + y == x;
    } else {
      var n := |y| - 1;
      assert (x + y)[..|x| + n] == x + y[..n];
      TallyConcat(x, y[..n], f);
    }
  }

  lemma TallyRow(e: Id, a: Id, c: Component, amount: int, f: Filter)
    ensures Tally(Row(e, a, c, amount), f) == if Matches(Alloc(e, a, c, amount), f) then amount else 0
  {
  }

  /** A split's rows add its fee and its principal to their event and advance, and nothing else. */
  lemma TallyRows(e: Id, a: Id, s: Split, feeFirst: bool, f: Filter)
    ensures Tally(Rows(e, a, s, feeFirst), f)
            == (if Matches(Alloc(e, a, FeePart, s.fee), f) then s.fee else 0)
             + (if Matches(Alloc(e, a, PrincipalPart, s.principal), f) then s.principal else 0)
  {
    TallyRow(e, a, FeePart, s.fee, f);
    TallyRow(e, a, PrincipalPart, s.principal, f);
    hide Tally, Row;
    if feeFirst {
      TallyConcat(Row(e, a, FeePart, s.fee), Row(e, a, PrincipalPart, s.principal), f);
    } else {
      TallyConcat(Row(e, a, PrincipalPart, s.principal), Row(e, a, FeePart, s.fee), f);
    }
  }

  /** `rows` belong to advance `a` alone. */
  predicate RowsOf(rows: seq<Alloc>, a: Id) {
    forall i | 0 <= i < |rows| :: rows[i].advance == a
  }

  lemma {:induction false} NoRowsElsewhere(rows: seq<Alloc>, a: Id, i: Id, c: Component)
    requires RowsOf(rows, a) && i != a
    ensures Tally(rows, OfAdvance(i, c)) == 0
  {
    if rows != [] {
      NoRowsElsewhere(rows[..|rows| - 1], a, i, c);
    }
  }

  // ------------------------------------------------------------------ one advance moves

  /** When only advance `a` changes, each sum moves by the change of its weight. */
  lemma TotalMoves(b: Book, b2: Book, a: Id, m: Measure)
    requires |b2.advances| == |b.advances| && a < |b.advances|
    requires forall i | 0 <= i < |b.advances| && i != a :: Weight(b2, m, i) == Weight(b, m, i)
    ensures Total(b2, m) == Total(b, m) - Weight(b, m, a) + Weight(b2, m, a)
  {
    hide Weight;
    assert Column(b2, m) == Column(b, m)[a := Weight(b2, m, a)];
    SumUpdate(Column(b, m), a, Weight(b2, m, a));
  }

  /** When an advance is added, each sum grows by its weight. */
  lemma TotalGrows(b: Book, b2: Book, m: Measure)
    requires |b2.advances| == |b.advances| + 1
    requires forall i | 0 <= i < |b.advances| :: Weight(b2, m, i) == Weight(b, m, i)
    ensures Total(b2, m) == Total(b, m) + Weight(b2, m, |b.advances|)
  {
    hide Weight;
    assert Column(b2, m) == Column(b, m) + [Weight(b2, m, |b.advances|)];
    SumAppend(Column(b, m), Weight(b2, m, |b.advances|));
  }

  /** Every weight is non-negative, so a sum bounds each of its terms. */
  lemma WeightBounded(b: Book, m: Measure, a: Id)
    requires a < |b.advances| && forall i | 0 <= i < |b.advances| :: AdvanceOk(b, i)
    ensures 0 <= Weight(b, m, a) <= Total(b, m)
  {
    forall i | 0 <= i < |Column(b, m)| ensures Column(b, m)[i] >= 0 {
      assert AdvanceOk(b, i);
    }
    SumNonNegative(Column(b, m));
    assert Column(b, m)[a] == Weight(b, m, a);
  }

  /** What the invariant says of one advance and the pool it draws on. */
  lemma CoreFacts(b: Book, a: Id)
    requires Core(b) && a < |b.advances|
    ensures AdvanceOk(b, a) && OneActive(b) && LedgerMatches(b)
    ensures b.advances[a].pool.Some? && b.advances[a].pool.value < |b.pools| && b.advances[a].outstanding >= 0
    ensures var p := b.advances[a].pool.value;
            var q := b.pools[p];
            && q.Fits() && q.utilised == Total(b, UtilisedOn(p)) && q.reserved == Total(b, ReservedOn(p))
            && (IsLive(b.advances[a].state) ==> 0 < b.advances[a].outstanding <= q.utilised)
            && (IsPending(b.advances[a].state) ==> 0 < b.advances[a].outstanding <= q.reserved)
  {
    hide Tally, Total;
    assert AdvanceOk(b, a);
    WeightBounded(b, UtilisedOn(b.advances[a].pool.value), a);
    WeightBounded(b, ReservedOn(b.advances[a].pool.value), a);
  }

  /** A money step: one advance, its pool, some allocation rows of that advance and one journal. */
  ghost function Moved(b: Book, a: Id, adv: Advance, q: Pool, rows: seq<Alloc>, key: JournalKey, e: EventType, v: Values): Book
    requires a < |b.advances| && b.advances[a].pool.Some? && b.advances[a].pool.value < |b.pools|
  {
    b.(advances := b.advances[a := adv],
       pools := b.pools[b.advances[a].pool.value := q],
       allocs := b.allocs + rows,
       journals := b.journals + [Journal(key, Lines(Seeded(e), v, CURRENCY))])
  }

  /** The weights of the other advances do not see a step on `a`. */
  lemma WeightElsewhere(b: Book, b2: Book, a: Id, m: Measure, i: Id)
    requires |b2.advances| == |b.advances| && i < |b.advances| && i != a
    requires b2.advances[i] == b.advances[i]
    requires |b.allocs| <= |b2.allocs| && b2.allocs[..|b.allocs|] == b.allocs && RowsOf(b2.allocs[|b.allocs|..], a)
    ensures Weight(b2, m, i) == Weight(b, m, i)
  {
    assert b2.allocs == b.allocs + b2.allocs[|b.allocs|..];
    TallyConcat(b.allocs, b2.allocs[|b.allocs|..], OfAdvance(i, FeePart));
    NoRowsElsewhere(b2.allocs[|b.allocs|..], a, i, FeePart);
  }

  lemma AdvanceOkElsewhere(b: Book, b2: Book, a: Id, i: Id)
    requires |b2.advances| == |b.advances| && i < |b.advances| && i != a
    requires b2.advances[i] == b.advances[i] && |b2.pools| == |b.pools|
    requires |b.allocs| <= |b2.allocs| && b2.allocs[..|b.allocs|] == b.allocs && RowsOf(b2.allocs[|b.allocs|..], a)
    requires AdvanceOk(b, i)
    ensures AdvanceOk(b2, i)
  {
    assert b2.allocs == b.allocs + b2.allocs[|b.allocs|..];
    TallyConcat(b.allocs, b2.allocs[|b.allocs|..], OfAdvance(i, FeePart));
    TallyConcat(b.allocs, b2.allocs[|b.allocs|..], OfAdvance(i, PrincipalPart));
    NoRowsElsewhere(b2.allocs[|b.allocs|..], a, i, FeePart);
    NoRowsElsewhere(b2.allocs[|b.allocs|..], a, i, PrincipalPart);
  }

  /** What the money of a step has to satisfy for the sums to follow it. */
  ghost predicate Consistent(b: Book, b2: Book, a: Id, receivable: int, unearned: int)
    requires |b2.advances| == |b.advances| && |b2.pools| == |b.pools| && a < |b.advances|
    requires b.advances[a].pool.Some? && b.advances[a].pool.value < |b.pools|
  {
    var p := b.advances[a].pool.value;
    && b2.advances[a].pool == b.advances[a].pool
    && b2.pools[p].Fits()
    && b2.pools[p].utilised - b.pools[p].utilised == Weight(b2, UtilisedOn(p), a) - Weight(b, UtilisedOn(p), a)
    && b2.pools[p].reserved - b.pools[p].reserved == Weight(b2, ReservedOn(p), a) - Weight(b, ReservedOn(p), a)
    && receivable == Weight(b2, ReceivableOwed, a) - Weight(b, ReceivableOwed, a)
    && unearned == Weight(b2, FeeUnearned, a) - Weight(b, FeeUnearned, a)
  }

  /** The one-active index after a step on `a` that passed its check. */
  lemma OneActiveKept(b: Book, b2: Book, a: Id)
    requires OneActive(b) && |b2.advances| == |b.advances| && a < |b.advances|
    requires forall i | 0 <= i < |b.advances| && i != a :: b2.advances[i] == b.advances[i]
    requires b2.advances[a].subscriber == b.advances[a].subscriber
    requires IsOpen(b2.advances[a].state) ==> IsOpen(b.advances[a].state) || !SlotTaken(b, a, b.advances[a].subscriber)
    ensures OneActive(b2)
  {
    hide IsOpen;
    forall i, j | 0 <= i < j < |b2.advances|
      && IsOpen(b2.advances[i].state) && IsOpen(b2.advances[j].state)
      ensures b2.advances[i].subscriber != b2.advances[j].subscriber
    {
      if IsOpen(b.advances[a].state) {
        assert IsOpen(b.advances[i].state) && IsOpen(b.advances[j].state);
      }
    }
  }

  lemma PoolsKept(b: Book, b2: Book, a: Id, receivable: int, unearned: int)
    requires PoolsMatch(b) && |b2.advances| == |b.advances| && |b2.pools| == |b.pools| && a < |b.advances|
    requires b.advances[a].pool.Some? && b.advances[a].pool.value < |b.pools|
    requires forall p | 0 <= p < |b.pools| && p != b.advances[a].pool.value :: b2.pools[p] == b.pools[p]
    requires forall m: Measure, i: Id | i < |b.advances| && i != a :: Weight(b2, m, i) == Weight(b, m, i)
    requires Consistent(b, b2, a, receivable, unearned)
    ensures PoolsMatch(b2)
  {
    forall p | 0 <= p < |b2.pools|
      ensures b2.pools[p].Fits()
      ensures b2.pools[p].utilised == Total(b2, UtilisedOn(p)) && b2.pools[p].reserved == Total(b2, ReservedOn(p))
    {
      TotalMoves(b, b2, a, UtilisedOn(p));
      TotalMoves(b, b2, a, ReservedOn(p));
      hide Total;
    }
  }

  lemma LedgerKept(b: Book, b2: Book, a: Id, j: Journal<JournalKey, Account>, receivable: int, unearned: int)
    requires LedgerMatches(b) && |b2.advances| == |b.advances| && |b2.pools| == |b.pools| && a < |b.advances|
    requires b.advances[a].pool.Some? && b.advances[a].pool.value < |b.pools|
    requires forall m: Measure, i: Id | i < |b.advances| && i != a :: Weight(b2, m, i) == Weight(b, m, i)
    requires Consistent(b, b2, a, receivable, unearned)
    requires b2.journals == b.journals + [j]
    requires Movement(j.lines, SubscriberReceivable, CURRENCY) == receivable
    requires Movement(j.lines, UnearnedFee, CURRENCY) == -unearned
    ensures LedgerMatches(b2)
  {
    assert b2.journals[..|b.journals|] == b.journals;
    TotalMoves(b, b2, a, ReceivableOwed);
    TotalMoves(b, b2, a, FeeUnearned);
  }

  /** The step lemma: a journalled money step whose figures agree keeps every cross-check. */
  lemma MovedKeepsCore(b: Book, a: Id, adv: Advance, q: Pool, rows: seq<Alloc>, key: JournalKey, e: EventType, v: Values)
    requires Core(b) && a < |b.advances| && AdvanceOk(b, a)
    requires RowsOf(rows, a) && adv.subscriber == b.advances[a].subscriber
    requires IsOpen(adv.state) ==> IsOpen(b.advances[a].state) || !SlotTaken(b, a, adv.subscriber)
    requires !KeyTaken(b.journals, key) && GoodValues(e, v)
    requires AdvanceOk(Moved(b, a, adv, q, rows, key, e, v), a)
    requires Consistent(b, Moved(b, a, adv, q, rows, key, e, v), a, ReceivableMove(e, v), -UnearnedMove(e, v))
    ensures Core(Moved(b, a, adv, q, rows, key, e, v))
  {
    var b2 := Moved(b, a, adv, q, rows, key, e, v);
    var j := Journal(key, Lines(Seeded(e), v, CURRENCY));
    SeededJournal(e, v, CURRENCY);
    assert b2.allocs[..|b.allocs|] == b.allocs && b2.allocs[|b.allocs|..] == rows;
    forall m: Measure, i: Id | i < |b.advances| && i != a ensures Weight(b2, m, i) == Weight(b, m, i) {
      WeightElsewhere(b, b2, a, m, i);
    }
    forall i | 0 <= i < |b2.advances| ensures AdvanceOk(b2, i) {
      if i != a {
        AdvanceOkElsewhere(b, b2, a, i);
      }
    }
    hide Weight, AdvanceOk, Lines, Seeded, Tally, Movement, GoodValues, ReceivableMove, UnearnedMove, Total, Net,
      Accepted;
    PoolsKept(b, b2, a, ReceivableMove(e, v), -UnearnedMove(e, v));
    LedgerKept(b, b2, a, j, ReceivableMove(e, v), -UnearnedMove(e, v));
    OneActiveKept(b, b2, a);
    JournalsKept(b, b2, j);
  }

  lemma JournalsKept(b: Book, b2: Book, j: Journal<JournalKey, Account>)
    requires JournalsBalance(b) && !KeyTaken(b.journals, j.key)
    requires forall c: string :: Net(j.lines, c) == 0
    requires b2.journals == b.journals + [j]
    ensures JournalsBalance(b2)
  {
  }
}
