/** The offer ladder: every denomination a subscriber may borrow, priced by the configured fee model. */
module Pricing {
  import opened Arith
  import opened BookTables
  import opened Common
  import opened Int64
  import opened Monetary

  datatype FeeModel = DeductedUpfront | AddedToRepayment

  datatype Product = Product(currency: string, denominations: seq<int>, feeBps: int, model: FeeModel)

  /** What the validator lets become active. */
  predicate Validated(p: Product) {
    && ValidCurrency(p.currency)
    && p.denominations != []
    && (forall i | 0 <= i < |p.denominations| :: 0 < p.denominations[i] <= MAX_INT64)
    && (forall i, j | 0 <= i < j < |p.denominations| :: p.denominations[i] < p.denominations[j])
    && 0 <= p.feeBps <= 10_000
  }

  /** One rung: nothing above the limit, nothing whose fee eats it whole. */
  function Rung(p: Product, denom: int, maxFace: Money): Result<Option<Offer>, MoneyError> {
    var face :- NewMoney(denom, p.currency);
    var _ :- SameCurrency(face, maxFace);
    if face.amount > maxFace.amount then Ok(None)
    else
      var fee :- PercentBps(face, p.feeBps);
      var disbursed :- if p.model.DeductedUpfront? then Sub(face, fee) else Ok(face);
      var repayment :- if p.model.DeductedUpfront? then Ok(face) else Add(face, fee);
      if !disbursed.IsPositive() then Ok(None)
      else Ok(Some(Offer(face.amount, fee.amount, disbursed.amount, repayment.amount, p.model.AddedToRepayment?)))
  }

  function Ladder(p: Product, denoms: seq<int>, maxFace: Money): Result<seq<Offer>, MoneyError> {
    if denoms == [] then Ok([])
    else
      var rest :- Ladder(p, denoms[..|denoms| - 1], maxFace);
      var o :- Rung(p, denoms[|denoms| - 1], maxFace);
      Ok(if o.None? then rest else rest + [o.value])
  }

  method BuildLadder(p: Product, maxFace: Money) returns (r: Result<seq<Offer>, MoneyError>)
    ensures r == Ladder(p, p.denominations, maxFace)
  {
    var out: seq<Offer> := [];
    var i := 0;
    while i < |p.denominations|
      invariant 0 <= i <= |p.denominations|
      invariant Ladder(p, p.denominations[..i], maxFace) == Ok(out)
    {
      assert p.denominations[..i + 1][..i] == p.denominations[..i];
      LadderStops(p, p.denominations, maxFace, i + 1);
      var face :- NewMoney(p.denominations[i], p.currency);
      var _ :- SameCurrency(face, maxFace);
      if face.amount <= maxFace.amount {
        var fee :- PercentBps(face, p.feeBps);
        var disbursed, repayment := face, face;
        match p.model {
          case DeductedUpfront => disbursed :- Sub(face, fee);
          case AddedToRepayment => repayment :- Add(face, fee);
        }
        if disbursed.IsPositive() {
          out := out + [Offer(face.amount, fee.amount, disbursed.amount, repayment.amount, p.model.AddedToRepayment?)];
        }
      }
      i := i + 1;
    }
    assert p.denominations[..i] == p.denominations;
    return Ok(out);
  }

  /** An error on the way is the error of the whole ladder. */
  lemma {:induction false} LadderStops(p: Product, denoms: seq<int>, maxFace: Money, k: nat)
    requires k <= |denoms|
    ensures Ladder(p, denoms[..k], maxFace).Err? ==> Ladder(p, denoms, maxFace) == Ladder(p, denoms[..k], maxFace)
    decreases |denoms| - k
  {
    if k == |denoms| {
      assert denoms[..k] == denoms;
    } else {
      assert denoms[..k + 1][..k] == denoms[..k];
      LadderStops(p, denoms, maxFace, k + 1);
    }
  }

  /** The fee on a denomination, to the nearest minor unit, halves up. */
  function FeeOn(denom: nat, bps: nat): nat {
    (2 * denom * bps + 10_000) / 20_000
  }

  lemma FeeIsNearest(denom: nat, bps: nat, c: string)
    requires 0 < denom <= MAX_INT64 && bps <= 10_000 && ValidCurrency(c)
    ensures FeeOn(denom, bps) <= denom
    ensures PercentBps(Money(denom, c), bps) == Ok(Money(FeeOn(denom, bps), c))
  {
    var num := denom * bps;
    FeeInRange(denom, bps, num);
    PercentBpsIsNearest(Money(denom, c), bps, FeeOn(denom, bps));
  }

  lemma FeeInRange(denom: nat, bps: nat, num: nat)
    requires num == denom * bps && bps <= 10_000
    ensures FeeOn(denom, bps) <= denom && RoundsTo(num, FeeOn(denom, bps))
  {
    MulMono(bps, 10_000, denom);
    assert 2 * denom * bps == 2 * num;
  }

  /** A denomination is offered when it is within the limit and its fee leaves something to lend. */
  predicate Offered(p: Product, denom: int, limit: int) {
    denom > 0 && p.feeBps >= 0 && denom <= limit && (p.model.AddedToRepayment? || FeeOn(denom, p.feeBps) < denom)
  }

  /** The repayment of the denomination does not fit an int64. */
  predicate TooLarge(p: Product, denom: int, limit: int) {
    denom > 0 && p.feeBps >= 0 && denom <= limit && p.model.AddedToRepayment? && denom + FeeOn(denom, p.feeBps) > MAX_INT64
  }

  lemma RungIs(p: Product, denom: int, maxFace: Money)
    requires Validated(p) && 0 < denom <= MAX_INT64 && InRange(maxFace.amount) && maxFace.currency == p.currency
    ensures var r := Rung(p, denom, maxFace);
            && (r.Err? <==> TooLarge(p, denom, maxFace.amount))
            && (r.Err? ==> r.error == Overflow)
            && (r.Ok? ==> (r.value.Some? <==> Offered(p, denom, maxFace.amount)))
            && (r.Ok? && r.value.Some? ==>
                  var o := r.value.value;
                  && Priced(o) && o.face == denom && o.fee == FeeOn(denom, p.feeBps)
                  && o.repayment == o.disbursed + o.fee)
  {
    var face := Money(denom, p.currency);
    FeeIsNearest(denom, p.feeBps, p.currency);
    var fee := Money(FeeOn(denom, p.feeBps), p.currency);
    AddIsExact(face, fee);
    SubIsExact(face, fee);
  }

  /** The offers are the offered denominations in order, each priced at the nearest fee. */
  ghost predicate OffersOf(p: Product, denoms: seq<int>, limit: int, offers: seq<Offer>) {
    && (forall d | d in denoms :: Offered(p, d, limit) ==> exists k :: 0 <= k < |offers| && offers[k].face == d)
    && (forall k | 0 <= k < |offers| ::
          var o := offers[k];
          && o.face in denoms && Offered(p, o.face, limit)
          && Priced(o) && o.fee == FeeOn(o.face, p.feeBps) && o.repayment == o.disbursed + o.fee)
    && (forall j, k | 0 <= j < k < |offers| :: offers[j].face < offers[k].face)
  }

  lemma OffersMore(p: Product, denoms: seq<int>, d: int, limit: int, offers: seq<Offer>, o: Option<Offer>)
    requires OffersOf(p, denoms, limit, offers) && (forall i | 0 <= i < |denoms| :: denoms[i] < d)
    requires o.Some? <==> Offered(p, d, limit)
    requires o.Some? ==> Priced(o.value) && o.value.face == d && o.value.fee == FeeOn(d, p.feeBps)
                         && o.value.repayment == o.value.disbursed + o.value.fee
    ensures OffersOf(p, denoms + [d], limit, if o.None? then offers else offers + [o.value])
  {
    hide Priced, Offered, FeeOn;
    var more := if o.None? then offers else offers + [o.value];
    forall e | e in denoms + [d] && Offered(p, e, limit) ensures exists k :: 0 <= k < |more| && more[k].face == e {
      if e in denoms {
        var k :| 0 <= k < |offers| && offers[k].face == e;
        assert more[k].face == e;
      } else {
        assert more[|offers|].face == e;
      }
    }
  }

  /** A validated product makes a ladder unless a repayment within the limit overflows; then it has exactly
      the offered denominations, in order. */
  lemma {:induction false} LadderIs(p: Product, denoms: seq<int>, maxFace: Money)
    requires Validated(p) && InRange(maxFace.amount) && maxFace.currency == p.currency && denoms <= p.denominations
    ensures var r := Ladder(p, denoms, maxFace);
            && (r.Err? <==> exists i :: 0 <= i < |denoms| && TooLarge(p, denoms[i], maxFace.amount))
            && (r.Ok? ==> OffersOf(p, denoms, maxFace.amount, r.value))
  {
    if denoms != [] {
      hide Ladder, Rung, TooLarge, Offered, OffersOf;
      var n := |denoms| - 1;
      LadderIs(p, denoms[..n], maxFace);
      RungIs(p, denoms[n], maxFace);
      LadderLast(p, denoms, maxFace);
      TooLargeSoFar(p, denoms, maxFace.amount);
      var rest := Ladder(p, denoms[..n], maxFace);
      if rest.Ok? && Rung(p, denoms[n], maxFace).Ok? {
        Ascending(p, denoms);
        OffersMore(p, denoms[..n], denoms[n], maxFace.amount, rest.value, Rung(p, denoms[n], maxFace).value);
        assert denoms == denoms[..n] + [denoms[n]];
      }
    } else {
      NoRungs(p, maxFace);
    }
  }

  lemma NoRungs(p: Product, maxFace: Money)
    ensures Ladder(p, [], maxFace) == Ok([]) && OffersOf(p, [], maxFace.amount, [])
  {
  }

  lemma LadderLast(p: Product, denoms: seq<int>, maxFace: Money)
    requires denoms != []
    ensures var n := |denoms| - 1;
            var rest, o := Ladder(p, denoms[..n], maxFace), Rung(p, denoms[n], maxFace);
            Ladder(p, denoms, maxFace) ==
            if rest.Err? then rest else if o.Err? then Err(o.error)
            else Ok(if o.value.None? then rest.value else rest.value + [o.value.value])
  {
  }

  lemma TooLargeSoFar(p: Product, denoms: seq<int>, limit: int)
    requires denoms != []
    ensures var n := |denoms| - 1;
            (exists i :: 0 <= i < |denoms| && TooLarge(p, denoms[i], limit))
            <==> (exists i :: 0 <= i < n && TooLarge(p, denoms[..n][i], limit)) || TooLarge(p, denoms[n], limit)
  {
    hide TooLarge;
    var n := |denoms| - 1;
    forall i | 0 <= i < n ensures TooLarge(p, denoms[i], limit) == TooLarge(p, denoms[..n][i], limit) {
    }
  }

  lemma Ascending(p: Product, denoms: seq<int>)
    requires Validated(p) && denoms <= p.denominations && denoms != []
    ensures var n := |denoms| - 1; forall i | 0 <= i < n :: denoms[..n][i] < denoms[n]
  {
  }
}
