/** The origination transactions in closed form, and that they keep the cross-checks. */
module BookOrigination {
  import opened BookInvariant
  import opened BookMoney
  import opened BookSteps
  import opened BookTables
  import opened Common
  import opened Ledger
  import opened Seqs
  import opened Templates

  // ------------------------------------------------------------------ accept

  function WithRow(b: Book, adv: Advance): Book {
    b.(advances := b.advances + [adv])
  }

  /** Writing the row just inserted. */
  lemma WriteLast(b: Book, adv: Advance, adv2: Advance)
    requires !SlotTaken(b, |b.advances|, adv2.subscriber) && adv2.outstanding >= 0
    ensures WriteAdvance(WithRow(b, adv), |b.advances|, adv.version, adv.state, adv2)
            == Ok(WithRow(b, adv2.(version := adv.version + 1)))
  {
    var b1 := WithRow(b, adv);
    assert !SlotTaken(b1, |b.advances|, adv2.subscriber);
    assert b1.advances[|b.advances| := adv2.(version := adv.version + 1)] == b.advances + [adv2.(version := adv.version + 1)];
    hide SlotTaken;
  }

  lemma {:induction false} FirstWithHeadroom(pools: seq<Pool>, programme: Id, amount: int)
    ensures match PoolWithHeadroom(pools, programme, amount)
            case None => forall i | 0 <= i < |pools| :: !HasHeadroom(pools[i], programme, amount)
            case Some(p) => p < |pools| && HasHeadroom(pools[p], programme, amount)
                            && forall i | 0 <= i < p :: !HasHeadroom(pools[i], programme, amount)
  {
    if pools != [] {
      FirstWithHeadroom(pools[..|pools| - 1], programme, amount);
    }
  }

  function NewAdvance(subscriber: Id, programme: Id, offer: PricedOffer, deferred: bool): Advance {
    Advance(subscriber, programme, offer, deferred, None, Requested, 1, offer.repayment, None)
  }

  /** The committed effect of an accepted confirm. */
  function AcceptedBook(b: Book, adv: Advance, p: Id): Book
    requires p < |b.pools|
  {
    var q := b.pools[p];
    b.(advances := b.advances + [adv.(pool := Some(p), state := PendingFulfilment, version := 4, attempt := Some(Sent))],
       pools := b.pools[p := q.(reserved := q.reserved + adv.outstanding)])
  }

  /** A confirm is refused exactly when the subscriber has an open advance or no active pool of the
      programme has headroom, and else reserves on the first pool that has. */
  lemma AcceptGoesThrough(b: Book, subscriber: Id, programme: Id, offer: PricedOffer, deferred: bool)
    requires forall p | 0 <= p < |b.pools| :: b.pools[p].Fits()
    ensures var p := PoolWithHeadroom(b.pools, programme, offer.repayment);
            (p.Some? ==> p.value < |b.pools|) &&
            Accept(b, subscriber, programme, offer, deferred) ==
              if SlotTaken(b, |b.advances|, subscriber) then Err(ConcurrentAdvance)
              else if p.None? then Err(NoFundingCapacity)
              else Ok(AcceptedBook(b, NewAdvance(subscriber, programme, offer, deferred), p.value))
  {
    FirstWithHeadroom(b.pools, programme, offer.repayment);
    var adv := NewAdvance(subscriber, programme, offer, deferred);
    var n := |b.advances|;
    if !SlotTaken(b, n, subscriber) {
      var adv2 := adv.(state := Validated);
      WriteLast(b, adv, adv2);
      var b2 := WithRow(b, adv2.(version := 2));
      assert Transition(WithRow(b, adv), n, 1, Requested, Validated) == Ok(b2);
      var pool := PoolWithHeadroom(b.pools, programme, offer.repayment);
      if pool.Some? {
        var p := pool.value;
        var q := b.pools[p];
        var bp := b.(pools := b.pools[p := q.(reserved := q.reserved + offer.repayment)]);
        var adv3 := adv2.(version := 2, state := ExposureReserved, pool := Some(p));
        assert Reserve(b2, programme, offer.repayment) == Ok((WithRow(bp, adv2.(version := 2)), p));
        assert !SlotTaken(bp, n, subscriber);
        AfterReserve(b, bp, adv2.(version := 2), adv3, p);
      }
    }
  }

  lemma AfterReserve(b: Book, bp: Book, adv2: Advance, adv3: Advance, p: Id)
    requires bp.advances == b.advances && !SlotTaken(bp, |bp.advances|, adv2.subscriber)
    requires adv2.version == 2 && adv2.state == Validated && adv2.outstanding >= 0
    requires adv3 == adv2.(state := ExposureReserved, pool := Some(p))
    ensures ReserveTransition(WithRow(bp, adv2), |bp.advances|, 2, p) == Ok(WithRow(bp, adv3.(version := 3)))
    ensures Transition(InsertAttempt(WithRow(bp, adv3.(version := 3)), |bp.advances|), |bp.advances|, 3,
                       ExposureReserved, PendingFulfilment)
            == Ok(WithRow(bp, adv3.(state := PendingFulfilment, version := 4, attempt := Some(Sent))))
  {
    var n := |bp.advances|;
    WriteLast(bp, adv2, adv3);
    var adv4 := adv3.(version := 3, attempt := Some(Sent));
    assert InsertAttempt(WithRow(bp, adv3.(version := 3)), n).advances == bp.advances + [adv4];
    WriteLast(bp, adv4, adv4.(state := PendingFulfilment));
    hide WriteAdvance, SlotTaken;
  }

  lemma AcceptKeepsCore(b: Book, adv: Advance, p: Id)
    requires Core(b) && p < |b.pools| && adv == NewAdvance(adv.subscriber, adv.programme, adv.offer, adv.deferred)
    requires !SlotTaken(b, |b.advances|, adv.subscriber) && HasHeadroom(b.pools[p], adv.programme, adv.outstanding)
    requires forall c: Component :: Tally(b.allocs, OfAdvance(|b.advances|, c)) == 0
    ensures Core(AcceptedBook(b, adv, p))
  {
    var b2 := AcceptedBook(b, adv, p);
    var n := |b.advances|;
    forall m: Measure, i: Id | i < n ensures Weight(b2, m, i) == Weight(b, m, i) {
      assert b2.advances[i] == b.advances[i];
    }
    forall m: Measure ensures Total(b2, m) == Total(b, m) + Weight(b2, m, n) {
      TotalGrows(b, b2, m);
    }
    AcceptPools(b, b2, p, adv.outstanding);
    forall a | 0 <= a < |b2.advances| ensures AdvanceOk(b2, a) {
      if a < n {
        assert b2.advances[a] == b.advances[a] && AdvanceOk(b, a);
      }
    }
    assert OneActive(b2) by {
      hide Tally, Total, AdvanceOk, IsOpen;
      forall i | 0 <= i < n && IsOpen(b.advances[i].state) ensures b.advances[i].subscriber != adv.subscriber {
      }
    }
    hide Total, Tally, AdvanceOk;
  }

  lemma AcceptPools(b: Book, b2: Book, p: Id, amount: int)
    requires PoolsMatch(b) && p < |b.pools| && |b2.advances| == |b.advances| + 1
    requires b2.pools == b.pools[p := b.pools[p].(reserved := b.pools[p].reserved + amount)] && amount >= 0
    requires b.pools[p].committed - b.pools[p].reserved - b.pools[p].utilised >= amount
    requires forall m: Measure :: Total(b2, m) == Total(b, m) + Weight(b2, m, |b.advances|)
    requires forall i: Id :: Weight(b2, UtilisedOn(i), |b.advances|) == 0
    requires forall i: Id :: Weight(b2, ReservedOn(i), |b.advances|) == if i == p then amount else 0
    ensures PoolsMatch(b2)
  {
    hide Total, Weight;
  }

  // ------------------------------------------------------------------ outcomes

  /** The attempt after the guarded update. */
  function AttemptAfter(adv: Advance, to: AttemptState): Option<AttemptState> {
    if adv.attempt == Some(CurrentAttemptState(adv.state)) then Some(to) else adv.attempt
  }

  /** The attempt update and the transition together write one row. */
  lemma AttemptThenTransition(b: Book, a: Id, attempt: AttemptState, to: AdvanceState)
    requires OneActive(b) && a < |b.advances| && IsPending(b.advances[a].state) && b.advances[a].outstanding >= 0
    requires CanTransition(b.advances[a].state, to)
    ensures var adv := b.advances[a];
            Transition(ResolveAttempt(b, a, CurrentAttemptState(adv.state), attempt), a, adv.version, adv.state, to)
            == Ok(b.(advances := b.advances[a := adv.(state := to, version := adv.version + 1, attempt := AttemptAfter(adv, attempt))]))
  {
    var adv := b.advances[a];
    var b1 := ResolveAttempt(b, a, CurrentAttemptState(adv.state), attempt);
    SlotIsOwn(b, a);
    assert b1.advances[a] == adv.(attempt := AttemptAfter(adv, attempt));
    assert SlotTaken(b1, a, adv.subscriber) == SlotTaken(b, a, adv.subscriber);
    assert b1 == b.(advances := b.advances[a := adv.(attempt := AttemptAfter(adv, attempt))]);
    var adv2 := adv.(state := to, version := adv.version + 1, attempt := AttemptAfter(adv, attempt));
    assert b1.advances[a := adv2] == b.advances[a := adv2];
    hide SlotTaken, CanTransition, IsOpen, OneActive;
  }

  ghost function ConfirmedBook(b: Book, a: Id): Book
    requires a < |b.advances| && b.advances[a].pool.Some? && b.advances[a].pool.value < |b.pools|
  {
    var adv := b.advances[a];
    var q := b.pools[adv.pool.value];
    Moved(b, a, adv.(state := Active, version := adv.version + 1, attempt := AttemptAfter(adv, Confirmed)),
          q.(reserved := q.reserved - adv.outstanding, utilised := q.utilised + adv.outstanding), [],
          IssuedKey(a), AdvanceIssued, IssueValues(adv))
  }

  function IssueValues(adv: Advance): Values {
    Values(adv.offer.disbursed, adv.offer.fee, 0, if adv.deferred then adv.offer.fee else 0, 0, 0)
  }

  function FailedBook(b: Book, a: Id): Book
    requires a < |b.advances| && b.advances[a].pool.Some? && b.advances[a].pool.value < |b.pools|
  {
    var adv := b.advances[a];
    var q := b.pools[adv.pool.value];
    b.(advances := b.advances[a := adv.(state := FulfilmentFailed, version := adv.version + 1,
                                        attempt := AttemptAfter(adv, AttemptFailed))],
       pools := b.pools[adv.pool.value := q.(reserved := q.reserved - adv.outstanding)])
  }

  function UnknownBook(b: Book, a: Id): Book
    requires a < |b.advances|
  {
    var adv := b.advances[a];
    b.(advances := b.advances[a :=
      if adv.state.PendingFulfilment?
      then adv.(state := FulfilmentUnknown, version := adv.version + 1, attempt := AttemptAfter(adv, AttemptUnknown))
      else adv.(attempt := AttemptAfter(adv, AttemptUnknown))])
  }

  /** An outcome for a pending advance always goes through. */
  lemma ResolveGoesThrough(b: Book, a: Id, outcome: Outcome)
    requires Core(b) && a < |b.advances| && IsPending(b.advances[a].state)
    requires !KeyTaken(b.journals, IssuedKey(a))
    ensures AdvanceOk(b, a)
    ensures Resolve(b, a, outcome) ==
              match outcome
              case OutcomeConfirmed => Ok(ConfirmedBook(b, a))
              case OutcomeUnknown => Ok(UnknownBook(b, a))
              case _ => Ok(FailedBook(b, a))
  {
    var adv := b.advances[a];
    assert AdvanceOk(b, a);
    var q := b.pools[adv.pool.value];
    assert q.Fits() && q.reserved == Total(b, ReservedOn(adv.pool.value));
    WeightBounded(b, ReservedOn(adv.pool.value), a);
    match outcome
    case OutcomeConfirmed =>
      AttemptThenTransition(b, a, Confirmed, Active);
      ConfirmParts(b, a);
    case OutcomeUnknown =>
      if adv.state.PendingFulfilment? {
        AttemptThenTransition(b, a, AttemptUnknown, FulfilmentUnknown);
      } else {
        assert b.advances[a := adv] == b.advances;
      }
    case _ =>
      AttemptThenTransition(b, a, AttemptFailed, FulfilmentFailed);
  }

  lemma ConfirmParts(b: Book, a: Id)
    requires a < |b.advances| && AdvanceOk(b, a) && IsPending(b.advances[a].state)
    requires !KeyTaken(b.journals, IssuedKey(a))
    requires var q := b.pools[b.advances[a].pool.value]; q.Fits() && b.advances[a].outstanding <= q.reserved
    ensures var adv := b.advances[a];
            var b2 := b.(advances := b.advances[a := adv.(state := Active, version := adv.version + 1, attempt := AttemptAfter(adv, Confirmed))]);
            var r := ConfirmUtilisation(b2, adv.pool, adv.outstanding);
            r.Ok? && PostIssued(r.value, a, adv) == Ok(ConfirmedBook(b, a))
  {
    var adv := b.advances[a];
    var q := b.pools[adv.pool.value];
    var b2 := b.(advances := b.advances[a := adv.(state := Active, version := adv.version + 1, attempt := AttemptAfter(adv, Confirmed))]);
    var b3 := b2.(pools := b2.pools[adv.pool.value := q.(reserved := q.reserved - adv.outstanding, utilised := q.utilised + adv.outstanding)]);
    assert ConfirmUtilisation(b2, adv.pool, adv.outstanding) == Ok(b3);
    hide Tally;
    Posts(b3, IssuedKey(a), AdvanceIssued, IssueValues(adv));
    assert b.allocs + [] == b.allocs;
  }

  lemma ConfirmKeepsCore(b: Book, a: Id)
    requires Core(b) && a < |b.advances| && IsPending(b.advances[a].state)
    requires !KeyTaken(b.journals, IssuedKey(a))
    ensures AdvanceOk(b, a) && Core(ConfirmedBook(b, a))
  {
    var adv := b.advances[a];
    assert AdvanceOk(b, a);
    ConfirmFigures(b, a);
    var v := IssueValues(adv);
    var q := b.pools[adv.pool.value];
    var adv2 := adv.(state := Active, version := adv.version + 1, attempt := AttemptAfter(adv, Confirmed));
    var q2 := q.(reserved := q.reserved - adv.outstanding, utilised := q.utilised + adv.outstanding);
    assert ConfirmedBook(b, a) == Moved(b, a, adv2, q2, [], IssuedKey(a), AdvanceIssued, v);
    assert RowsOf([], a) && IsOpen(adv.state);
    hide *;
    MovedKeepsCore(b, a, adv2, q2, [], IssuedKey(a), AdvanceIssued, v);
  }

  lemma ConfirmFigures(b: Book, a: Id)
    requires Core(b) && a < |b.advances| && AdvanceOk(b, a) && IsPending(b.advances[a].state)
    ensures var v := IssueValues(b.advances[a]);
            && GoodValues(AdvanceIssued, v)
            && AdvanceOk(ConfirmedBook(b, a), a)
            && Consistent(b, ConfirmedBook(b, a), a, ReceivableMove(AdvanceIssued, v), -UnearnedMove(AdvanceIssued, v))
  {
    var adv := b.advances[a];
    var q := b.pools[adv.pool.value];
    assert q.Fits() && q.reserved == Total(b, ReservedOn(adv.pool.value));
    WeightBounded(b, ReservedOn(adv.pool.value), a);
    assert b.allocs + [] == b.allocs;
    hide Tally, Total, Core, PoolsMatch, Lines, Seeded;
  }

  /** A step without a journal on an advance that carries no receivable before or after. */
  lemma QuietKeepsCore(b: Book, b2: Book, a: Id)
    requires Core(b) && a < |b.advances| && AdvanceOk(b, a)
    requires |b2.advances| == |b.advances| && |b2.pools| == |b.pools|
    requires b2 == b.(advances := b2.advances, pools := b2.pools)
    requires forall i | 0 <= i < |b.advances| && i != a :: b2.advances[i] == b.advances[i]
    requires forall p | 0 <= p < |b.pools| && p != b.advances[a].pool.value :: b2.pools[p] == b.pools[p]
    requires b2.advances[a].subscriber == b.advances[a].subscriber
    requires IsOpen(b2.advances[a].state) ==> IsOpen(b.advances[a].state)
    requires AdvanceOk(b2, a) && Consistent(b, b2, a, 0, 0)
    ensures Core(b2)
  {
    forall m: Measure, i: Id | i < |b.advances| && i != a ensures Weight(b2, m, i) == Weight(b, m, i) {
    }
    forall i | 0 <= i < |b2.advances| ensures AdvanceOk(b2, i) {
      if i != a {
        assert AdvanceOk(b, i);
      }
    }
    hide Weight, AdvanceOk, Tally, Total, Net;
    PoolsKept(b, b2, a, 0, 0);
    OneActiveKept(b, b2, a);
    TotalMoves(b, b2, a, ReceivableOwed);
    TotalMoves(b, b2, a, FeeUnearned);
  }

  lemma FailKeepsCore(b: Book, a: Id)
    requires Core(b) && a < |b.advances| && IsPending(b.advances[a].state)
    ensures AdvanceOk(b, a) && Core(FailedBook(b, a))
  {
    hide *;
    CoreFacts(b, a);
    FailFigures(b, a);
    QuietKeepsCore(b, FailedBook(b, a), a);
  }

  lemma FailFigures(b: Book, a: Id)
    requires a < |b.advances| && AdvanceOk(b, a) && IsPending(b.advances[a].state)
    requires var q := b.pools[b.advances[a].pool.value];
             q.Fits() && b.advances[a].outstanding <= q.reserved
    ensures var b2 := FailedBook(b, a);
            && |b2.advances| == |b.advances| && |b2.pools| == |b.pools| && b2 == b.(advances := b2.advances, pools := b2.pools)
            && (forall i | 0 <= i < |b.advances| && i != a :: b2.advances[i] == b.advances[i])
            && (forall p | 0 <= p < |b.pools| && p != b.advances[a].pool.value :: b2.pools[p] == b.pools[p])
            && b2.advances[a].subscriber == b.advances[a].subscriber
            && (IsOpen(b2.advances[a].state) ==> IsOpen(b.advances[a].state))
            && AdvanceOk(b2, a) && Consistent(b, b2, a, 0, 0)
  {
    hide Tally;
  }

  lemma UnknownKeepsCore(b: Book, a: Id)
    requires Core(b) && a < |b.advances| && IsPending(b.advances[a].state)
    ensures Core(UnknownBook(b, a))
  {
    hide *;
    CoreFacts(b, a);
    UnknownFigures(b, a);
    QuietKeepsCore(b, UnknownBook(b, a), a);
  }

  lemma UnknownFigures(b: Book, a: Id)
    requires a < |b.advances| && AdvanceOk(b, a) && IsPending(b.advances[a].state)
    requires var q := b.pools[b.advances[a].pool.value];
             q.Fits()
    ensures var b2 := UnknownBook(b, a);
            && |b2.advances| == |b.advances| && |b2.pools| == |b.pools| && b2 == b.(advances := b2.advances, pools := b2.pools)
            && (forall i | 0 <= i < |b.advances| && i != a :: b2.advances[i] == b.advances[i])
            && (forall p | 0 <= p < |b.pools| && p != b.advances[a].pool.value :: b2.pools[p] == b.pools[p])
            && b2.advances[a].subscriber == b.advances[a].subscriber
            && (IsOpen(b2.advances[a].state) ==> IsOpen(b.advances[a].state))
            && AdvanceOk(b2, a) && Consistent(b, b2, a, 0, 0)
  {
    hide Tally;
  }

  lemma RescheduleKeepsCore(b: Book, a: Id)
    requires Core(b) && a < |b.advances|
    ensures Core(ResolveAttempt(b, a, Sent, AttemptUnknown))
  {
    hide *;
    CoreFacts(b, a);
    RescheduleFigures(b, a);
    QuietKeepsCore(b, ResolveAttempt(b, a, Sent, AttemptUnknown), a);
  }

  lemma RescheduleFigures(b: Book, a: Id)
    requires a < |b.advances| && AdvanceOk(b, a)
    requires var q := b.pools[b.advances[a].pool.value];
             q.Fits()
    ensures var b2 := ResolveAttempt(b, a, Sent, AttemptUnknown);
            && |b2.advances| == |b.advances| && |b2.pools| == |b.pools| && b2 == b.(advances := b2.advances, pools := b2.pools)
            && (forall i | 0 <= i < |b.advances| && i != a :: b2.advances[i] == b.advances[i])
            && (forall p | 0 <= p < |b.pools| && p != b.advances[a].pool.value :: b2.pools[p] == b.pools[p])
            && b2.advances[a].subscriber == b.advances[a].subscriber
            && (IsOpen(b2.advances[a].state) ==> IsOpen(b.advances[a].state))
            && AdvanceOk(b2, a) && Consistent(b, b2, a, 0, 0)
  {
    hide Tally;
  }
}
