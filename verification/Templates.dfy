/** Governed posting templates: the symbolic balance proof made at approval, and rendering at posting. */
module Templates {
  import Arith
  import opened Common
  import opened Int64
  import opened Ledger
  import opened Monetary

  datatype Symbol = Amount | Disbursed | Fee | Outstanding | FeeDeferAdj | FeeRecognized | FeeUnearnedReversed

  datatype Leg<+A> = Leg(account: A, side: Side, symbol: Symbol, omitWhenZero: bool)

  type Bindings = map<Symbol, Money>

  /** The validator's six independent axes: OUTSTANDING is the only symbol on two of them. */
  datatype Axis = DisbursedAxis | FeeAxis | AmountAxis | DeferAxis | RecognizedAxis | ReversedAxis

  function Basis(s: Symbol, k: Axis): int {
    match s
    case Disbursed => if k == DisbursedAxis then 1 else 0
    case Fee => if k == FeeAxis then 1 else 0
    case Outstanding => if k == DisbursedAxis || k == FeeAxis then 1 else 0
    case Amount => if k == AmountAxis then 1 else 0
    case FeeDeferAdj => if k == DeferAxis then 1 else 0
    case FeeRecognized => if k == RecognizedAxis then 1 else 0
    case FeeUnearnedReversed => if k == ReversedAxis then 1 else 0
  }

  /** One binding of the symbols: a value for each axis. */
  datatype Values = Values(disbursed: int, fee: int, amount: int, deferred: int, recognized: int, reversed: int) {
    function At(k: Axis): int {
      match k
      case DisbursedAxis => disbursed
      case FeeAxis => fee
      case AmountAxis => amount
      case DeferAxis => deferred
      case RecognizedAxis => recognized
      case ReversedAxis => reversed
    }
  }

  /** What symbol `s` stands for under the values `v`. */
  function Value(s: Symbol, v: Values): int {
    match s
    case Disbursed => v.disbursed
    case Fee => v.fee
    case Outstanding => v.disbursed + v.fee
    case Amount => v.amount
    case FeeDeferAdj => v.deferred
    case FeeRecognized => v.recognized
    case FeeUnearnedReversed => v.reversed
  }

  // ------------------------------------------------------------------ approval

  /** Debit coefficients minus credit coefficients along one axis. */
  function SymbolicNet<A>(legs: seq<Leg<A>>, k: Axis): int {
    if legs == [] then 0
    else
      var l := legs[|legs| - 1];
      SymbolicNet(legs[..|legs| - 1], k) + Sign(l.side) * Basis(l.symbol, k)
  }

  function Sign(s: Side): int {
    match s
    case Debit => 1
    case Credit => -1
    case OtherSide => 0
  }

  ghost predicate SymbolicallyBalanced<A>(legs: seq<Leg<A>>) {
    forall k: Axis :: SymbolicNet(legs, k) == 0
  }

  /** What the validator lets become active: two legs, known accounts and sides, symbolic balance. */
  ghost predicate Approved<A>(legs: seq<Leg<A>>, chart: set<A>) {
    && |legs| >= 2
    && (forall i | 0 <= i < |legs| :: legs[i].account in chart && legs[i].side != OtherSide)
    && SymbolicallyBalanced(legs)
  }

  // ------------------------------------------------------------------ rendering

  /** The lines of a template under the values `v`, in currency `c`. */
  function Lines<A>(legs: seq<Leg<A>>, v: Values, c: string): seq<Line<A>> {
    if legs == [] then []
    else
      var l := legs[|legs| - 1];
      var rest := Lines(legs[..|legs| - 1], v, c);
      if l.omitWhenZero && Value(l.symbol, v) == 0 then rest
      else rest + [Line(l.account, if l.side == Credit then Credit else Debit, Money(Value(l.symbol, v), c))]
  }

  /** The bindings give every bound symbol its value under `v`, in currency `c`. */
  ghost predicate Binds(b: Bindings, v: Values, c: string) {
    forall s | s in b :: b[s] == Money(Value(s, v), c)
  }

  /** Renders the legs in order; an unbound symbol refuses the posting even where its leg would be omitted. */
  method Render<A>(legs: seq<Leg<A>>, b: Bindings, ghost v: Values, c: string) returns (r: Option<seq<Line<A>>>)
    requires c != "" && Binds(b, v, c)
    ensures r == if forall i | 0 <= i < |legs| :: legs[i].symbol in b then Some(Lines(legs, v, c)) else None
  {
    var lines := [];
    var k := 0;
    while k < |legs|
      invariant 0 <= k <= |legs|
      invariant forall i | 0 <= i < k :: legs[i].symbol in b
      invariant lines == Lines(legs[..k], v, c)
    {
      var l := legs[k];
      assert legs[..k + 1][..k] == legs[..k];
      if l.symbol !in b {
        return None;
      }
      var m := b[l.symbol];
      if !(l.omitWhenZero && m.IsZero()) {
        lines := lines + [Line(l.account, if l.side == Credit then Credit else Debit, m)];
      }
      k := k + 1;
    }
    assert legs[..k] == legs;
    return Some(lines);
  }

  /** The symbolic net evaluated at the bound values. */
  function Evaluated<A>(legs: seq<Leg<A>>, v: Values): int {
    SymbolicNet(legs, DisbursedAxis) * v.disbursed + SymbolicNet(legs, FeeAxis) * v.fee
    + SymbolicNet(legs, AmountAxis) * v.amount + SymbolicNet(legs, DeferAxis) * v.deferred
    + SymbolicNet(legs, RecognizedAxis) * v.recognized + SymbolicNet(legs, ReversedAxis) * v.reversed
  }

  /** The last leg adds its signed value to the evaluated net. */
  lemma EvaluatedAppend<A>(legs: seq<Leg<A>>, v: Values)
    requires legs != []
    ensures Evaluated(legs, v)
            == Evaluated(legs[..|legs| - 1], v) + Sign(legs[|legs| - 1].side) * Value(legs[|legs| - 1].symbol, v)
  {
    hide SymbolicNet;
    var init, l := legs[..|legs| - 1], legs[|legs| - 1];
    AxisAppend(legs, DisbursedAxis, v.disbursed);
    AxisAppend(legs, FeeAxis, v.fee);
    AxisAppend(legs, AmountAxis, v.amount);
    AxisAppend(legs, DeferAxis, v.deferred);
    AxisAppend(legs, RecognizedAxis, v.recognized);
    AxisAppend(legs, ReversedAxis, v.reversed);
  }

  lemma AxisAppend<A>(legs: seq<Leg<A>>, k: Axis, x: int)
    requires legs != []
    ensures var n := |legs| - 1;
            SymbolicNet(legs, k) * x == SymbolicNet(legs[..n], k) * x
              + if Basis(legs[n].symbol, k) == 1 then Sign(legs[n].side) * x else 0
  {
    var n := |legs| - 1;
    Arith.Distribute(SymbolicNet(legs[..n], k), Sign(legs[n].side) * Basis(legs[n].symbol, k), x);
  }

  /** The net of the rendered lines is the symbolic net evaluated at the bound values. */
  lemma {:induction false} RenderedNet<A>(legs: seq<Leg<A>>, v: Values, c: string)
    requires forall i | 0 <= i < |legs| :: legs[i].side != OtherSide
    ensures Net(Lines(legs, v, c), c) == Evaluated(legs, v)
  {
    if legs != [] {
      RenderedNet(legs[..|legs| - 1], v, c);
      EvaluatedAppend(legs, v);
      NetOfRendered(legs, v, c);
    }
  }

  lemma NetOfRendered<A>(legs: seq<Leg<A>>, v: Values, c: string)
    requires legs != [] && legs[|legs| - 1].side != OtherSide
    ensures Net(Lines(legs, v, c), c) == Net(Lines(legs[..|legs| - 1], v, c), c)
                + Sign(legs[|legs| - 1].side) * Value(legs[|legs| - 1].symbol, v)
  {
    var rest, out := Lines(legs[..|legs| - 1], v, c), Lines(legs, v, c);
    assert out == rest || out[..|out| - 1] == rest;
  }

  /** The symbolic proof is sound and complete: a template balances symbolically exactly when it renders
      to balanced lines for every binding, omitted legs included. */
  lemma SymbolicBalanceIsNumericBalance<A>(legs: seq<Leg<A>>, c: string)
    requires forall i | 0 <= i < |legs| :: legs[i].side != OtherSide
    ensures SymbolicallyBalanced(legs) <==> forall v: Values :: Net(Lines(legs, v, c), c) == 0
  {
    hide Net, Lines, SymbolicNet;
    forall v: Values ensures Net(Lines(legs, v, c), c) == Evaluated(legs, v) {
      RenderedNet(legs, v, c);
    }
    if !SymbolicallyBalanced(legs) {
      var k: Axis :| SymbolicNet(legs, k) != 0;
      var v := Probe(k);
      RenderedNet(legs, v, c);
      assert Evaluated(legs, v) == SymbolicNet(legs, k);
    }
  }

  /** A binding that is one on a single axis. */
  function Probe(k: Axis): Values {
    match k
    case DisbursedAxis => Values(1, 0, 0, 0, 0, 0)
    case FeeAxis => Values(0, 1, 0, 0, 0, 0)
    case AmountAxis => Values(0, 0, 1, 0, 0, 0)
    case DeferAxis => Values(0, 0, 0, 1, 0, 0)
    case RecognizedAxis => Values(0, 0, 0, 0, 1, 0)
    case ReversedAxis => Values(0, 0, 0, 0, 0, 1)
  }

  /** Rendered lines touch no other currency. */
  lemma {:induction false} NoOtherCurrency<A>(legs: seq<Leg<A>>, v: Values, c: string, d: string)
    requires c != d
    ensures Net(Lines(legs, v, c), d) == 0
  {
    if legs != [] {
      NoOtherCurrency(legs[..|legs| - 1], v, c, d);
      var rest := Lines(legs[..|legs| - 1], v, c);
      var out := Lines(legs, v, c);
      assert out == rest || out[..|out| - 1] == rest;
    }
  }

  /** No value is negative, and only a leg that may be omitted stands for zero. */
  predicate Payable<A>(legs: seq<Leg<A>>, v: Values) {
    forall i | 0 <= i < |legs| ::
      var x := Value(legs[i].symbol, v);
      x > 0 || (x == 0 && legs[i].omitWhenZero)
  }

  lemma {:induction false} RenderedLinesAreGood<A>(legs: seq<Leg<A>>, v: Values, c: string, chart: set<A>)
    requires c != "" && Payable(legs, v) && forall i | 0 <= i < |legs| :: legs[i].account in chart
    ensures FirstFault(Lines(legs, v, c), chart).None?
  {
    if legs != [] {
      RenderedLinesAreGood(legs[..|legs| - 1], v, c, chart);
      var rest := Lines(legs[..|legs| - 1], v, c);
      var out := Lines(legs, v, c);
      assert out == rest || out[..|out| - 1] == rest;
    }
  }

  /** A journal rendered from an approved template passes Post's own checks whenever at least two legs
      survive: no bound on the amounts is needed, since the true sums are zero. */
  lemma ApprovedTemplatePosts<A>(legs: seq<Leg<A>>, v: Values, c: string, chart: set<A>)
    requires c != "" && Approved(legs, chart) && Payable(legs, v)
    ensures Accepted(Lines(legs, v, c), chart) <==> |Lines(legs, v, c)| >= 2
    ensures forall d: string :: Net(Lines(legs, v, c), d) == 0
  {
    RenderedLinesAreGood(legs, v, c, chart);
    forall d: string ensures Net(Lines(legs, v, c), d) == 0 {
      if d == c {
        RenderedNet(legs, v, c);
      } else {
        NoOtherCurrency(legs, v, c, d);
      }
    }
  }

  // ------------------------------------------------------------------ deferred-fee legs

  predicate IsDeferral(s: Symbol) {
    s == FeeDeferAdj || s == FeeRecognized || s == FeeUnearnedReversed
  }

  /** The template with its deferred-fee legs taken out. */
  function Upfront<A>(legs: seq<Leg<A>>): seq<Leg<A>> {
    if legs == [] then []
    else
      var l := legs[|legs| - 1];
      Upfront(legs[..|legs| - 1]) + if IsDeferral(l.symbol) then [] else [l]
  }

  /** With every deferred-fee symbol zero, the journal is line for line the one without those legs. */
  lemma {:induction false} UpfrontJournalUnchanged<A>(legs: seq<Leg<A>>, v: Values, c: string)
    requires v.deferred == v.recognized == v.reversed == 0
    requires forall i | 0 <= i < |legs| :: IsDeferral(legs[i].symbol) ==> legs[i].omitWhenZero
    ensures Lines(legs, v, c) == Lines(Upfront(legs), v, c)
  {
    if legs != [] {
      hide Value, IsDeferral;
      var n := |legs| - 1;
      UpfrontJournalUnchanged(legs[..n], v, c);
      NoDeferral(legs[n].symbol, v);
      var u := Upfront(legs[..n]);
      if !IsDeferral(legs[n].symbol) {
        assert (u + [legs[n]])[..|u|] == u;
      } else {
        assert u + [] == u;
      }
    }
  }

  lemma NoDeferral(s: Symbol, v: Values)
    requires v.deferred == v.recognized == v.reversed == 0
    ensures IsDeferral(s) ==> Value(s, v) == 0
  {
  }

  // ------------------------------------------------------------------ the seeded templates

  datatype Account =
    | SubscriberReceivable
    | AirtimeFundingClearing
    | FeeIncome
    | UnearnedFee
    | TelcoSettlementReceivable
    | RecoverySuspense
    | WriteoffRecoveryIncome
    | WriteOffExpense

  const CHART: set<Account> := {
    SubscriberReceivable, AirtimeFundingClearing, FeeIncome, UnearnedFee,
    TelcoSettlementReceivable, RecoverySuspense, WriteoffRecoveryIncome, WriteOffExpense
  }

  datatype EventType =
    | AdvanceIssued
    | RecoveryApplied
    | RecoverySuspended
    | RecoveryReversed
    | RecoveryQuarantined
    | WriteoffRecovery
    | WriteOffPosted

  /** The first template set, before fees could be deferred. */
  function SeededV1(e: EventType): seq<Leg<Account>> {
    match e
    case AdvanceIssued =>
      [Leg(SubscriberReceivable, Debit, Outstanding, false),
       Leg(AirtimeFundingClearing, Credit, Disbursed, false),
       Leg(FeeIncome, Credit, Fee, true)]
    case RecoveryApplied => Pair(TelcoSettlementReceivable, SubscriberReceivable, Amount, false)
    case RecoverySuspended => Pair(TelcoSettlementReceivable, RecoverySuspense, Amount, false)
    case RecoveryReversed => Pair(SubscriberReceivable, TelcoSettlementReceivable, Amount, false)
    case RecoveryQuarantined => Pair(TelcoSettlementReceivable, RecoverySuspense, Amount, false)
    case WriteoffRecovery => Pair(TelcoSettlementReceivable, WriteoffRecoveryIncome, Amount, false)
    case WriteOffPosted => Pair(WriteOffExpense, SubscriberReceivable, Amount, false)
  }

  /** One symbol moved from one account to another. */
  function Pair(debit: Account, credit: Account, s: Symbol, omit: bool): seq<Leg<Account>> {
    [Leg(debit, Debit, s, omit), Leg(credit, Credit, s, omit)]
  }

  /** The legs the second template set adds: one debit and one credit of one deferred-fee symbol. */
  function DeferralLegs(e: EventType): seq<Leg<Account>> {
    match e
    case AdvanceIssued => Pair(FeeIncome, UnearnedFee, FeeDeferAdj, true)
    case RecoveryApplied => Pair(UnearnedFee, FeeIncome, FeeRecognized, true)
    case RecoveryReversed => Pair(FeeIncome, UnearnedFee, FeeRecognized, true)
    case WriteOffPosted => Pair(UnearnedFee, WriteOffExpense, FeeUnearnedReversed, true)
    case _ => []
  }

  /** The active template set. */
  function Seeded(e: EventType): seq<Leg<Account>> {
    SeededV1(e) + DeferralLegs(e)
  }

  lemma {:induction false} SymbolicConcat<A>(x: seq<Leg<A>>, y: seq<Leg<A>>, k: Axis)
    ensures SymbolicNet(x + y, k) == SymbolicNet(x, k) + SymbolicNet(y, k)
  {
    if y == [] {
      assert x + y == x;
    } else {
      var n := |y| - 1;
      assert (x + y)[..|x| + n] == x + y[..n];
      SymbolicConcat(x, y[..n], k);
    }
  }

  lemma SymbolicPair(debit: Account, credit: Account, s: Symbol, omit: bool, k: Axis)
    ensures SymbolicNet(Pair(debit, credit, s, omit), k) == 0
  {
    var x := Pair(debit, credit, s, omit);
    assert x[..1][..0] == [];
    assert SymbolicNet(x[..1], k) == Basis(s, k);
  }

  lemma SymbolicIssue(k: Axis)
    ensures SymbolicNet(SeededV1(AdvanceIssued), k) == 0
  {
    var x := SeededV1(AdvanceIssued);
    assert x[..2][..1] == x[..1] && x[..1][..0] == [];
    assert SymbolicNet(x[..1], k) == Basis(Outstanding, k);
    assert SymbolicNet(x[..2], k) == Basis(Outstanding, k) - Basis(Disbursed, k);
  }

  /** Every seeded template meets the validator's proof. */
  lemma SeededApproved(e: EventType)
    ensures Approved(Seeded(e), CHART)
  {
    forall k: Axis ensures SymbolicNet(Seeded(e), k) == 0 {
      SymbolicConcat(SeededV1(e), DeferralLegs(e), k);
      match e {
        case AdvanceIssued =>
          SymbolicIssue(k);
          SymbolicPair(FeeIncome, UnearnedFee, FeeDeferAdj, true, k);
        case RecoveryApplied =>
          SymbolicPair(TelcoSettlementReceivable, SubscriberReceivable, Amount, false, k);
          SymbolicPair(UnearnedFee, FeeIncome, FeeRecognized, true, k);
        case RecoveryReversed =>
          SymbolicPair(SubscriberReceivable, TelcoSettlementReceivable, Amount, false, k);
          SymbolicPair(FeeIncome, UnearnedFee, FeeRecognized, true, k);
        case WriteOffPosted =>
          SymbolicPair(WriteOffExpense, SubscriberReceivable, Amount, false, k);
          SymbolicPair(UnearnedFee, WriteOffExpense, FeeUnearnedReversed, true, k);
        case WriteoffRecovery => SymbolicPair(TelcoSettlementReceivable, WriteoffRecoveryIncome, Amount, false, k);
        case _ => SymbolicPair(TelcoSettlementReceivable, RecoverySuspense, Amount, false, k);
      }
    }
    SeededLegsOnChart(e);
  }

  lemma OnChart(a: Account)
    ensures a in CHART
  {
    match a {
      case SubscriberReceivable =>
      case AirtimeFundingClearing =>
      case FeeIncome =>
      case UnearnedFee =>
      case TelcoSettlementReceivable =>
      case RecoverySuspense =>
      case WriteoffRecoveryIncome =>
      case WriteOffExpense =>
    }
  }

  lemma SeededLegsOnChart(e: EventType)
    ensures |Seeded(e)| >= 2
    ensures forall i | 0 <= i < |Seeded(e)| :: Seeded(e)[i].account in CHART && Seeded(e)[i].side != OtherSide
  {
    forall i | 0 <= i < |Seeded(e)| ensures Seeded(e)[i].account in CHART {
      OnChart(Seeded(e)[i].account);
    }
  }

  /** The amounts bound for an event: positive where a leg must be paid, never negative. */
  predicate GoodValues(e: EventType, v: Values) {
    && v.fee >= 0 && v.deferred >= 0 && v.recognized >= 0 && v.reversed >= 0
    && if e.AdvanceIssued? then v.disbursed > 0 else v.amount > 0
  }

  lemma {:induction false} LinesOfConcat<A>(x: seq<Leg<A>>, y: seq<Leg<A>>, v: Values, c: string)
    ensures Lines(x + y, v, c) == Lines(x, v, c) + Lines(y, v, c)
  {
    if y == [] {
      assert x + y == x;
    } else {
      var n := |y| - 1;
      assert (x + y)[..|x| + n] == x + y[..n];
      LinesOfConcat(x, y[..n], v, c);
    }
  }

  lemma {:induction false} MovementConcat<A>(x: seq<Line<A>>, y: seq<Line<A>>, account: A, c: string)
    ensures Movement(x + y, account, c) == Movement(x, account, c) + Movement(y, account, c)
  {
    if y == [] {
      assert x + y == x;
    } else {
      var n := |y| - 1;
      assert (x + y)[..|x| + n] == x + y[..n];
      MovementConcat(x, y[..n], account, c);
    }
  }

  lemma MovementOfLine<A>(l: Line<A>, account: A, c: string)
    ensures Movement([l], account, c) == if l.account == account then Signed(l, c) else 0
  {
    assert [l][..0] == [];
  }

  lemma LinesOfLeg<A>(l: Leg<A>, v: Values, c: string)
    ensures Lines([l], v, c) ==
            if l.omitWhenZero && Value(l.symbol, v) == 0 then []
            else [Line(l.account, if l.side == Credit then Credit else Debit, Money(Value(l.symbol, v), c))]
  {
    hide Value;
    assert [l][..0] == [];
  }

  lemma MovementOfLeg<A>(l: Leg<A>, v: Values, c: string, account: A)
    ensures var x := Value(l.symbol, v);
            Movement(Lines([l], v, c), account, c)
            == if l.account != account then 0 else if l.side == Credit then -x else x
  {
    LinesOfLeg(l, v, c);
    hide Value, Lines;
    if Lines([l], v, c) != [] {
      MovementOfLine(Lines([l], v, c)[0], account, c);
      hide Movement;
    }
  }

  lemma MovementOfPair(debit: Account, credit: Account, s: Symbol, omit: bool, v: Values, c: string, account: Account)
    ensures Movement(Lines(Pair(debit, credit, s, omit), v, c), account, c)
            == (if account == debit then Value(s, v) else 0) - (if account == credit then Value(s, v) else 0)
  {
    var k, l := Leg(debit, Debit, s, omit), Leg(credit, Credit, s, omit);
    assert Pair(debit, credit, s, omit) == [k] + [l];
    MovementOfLeg(k, v, c, account);
    MovementOfLeg(l, v, c, account);
    hide Movement, Lines, Pair, Value;
    LinesOfConcat([k], [l], v, c);
    MovementConcat(Lines([k], v, c), Lines([l], v, c), account, c);
  }

  lemma MovementOfIssue(v: Values, c: string, account: Account)
    requires account == SubscriberReceivable || account == UnearnedFee
    ensures Movement(Lines(SeededV1(AdvanceIssued), v, c), account, c)
            == if account == SubscriberReceivable then v.disbursed + v.fee else 0
  {
    var x := SeededV1(AdvanceIssued);
    var k, l, m := x[0], x[1], x[2];
    assert x == [k] + [l] + [m];
    MovementOfLeg(k, v, c, account);
    MovementOfLeg(l, v, c, account);
    MovementOfLeg(m, v, c, account);
    hide Movement, Lines;
    LinesOfConcat([k], [l], v, c);
    LinesOfConcat([k] + [l], [m], v, c);
    MovementConcat(Lines([k], v, c), Lines([l], v, c), account, c);
    MovementConcat(Lines([k] + [l], v, c), Lines([m], v, c), account, c);
  }

  /** What a seeded journal moves on the two accounts the book is cross-checked against. */
  function ReceivableMove(e: EventType, v: Values): int {
    match e
    case AdvanceIssued => v.disbursed + v.fee
    case RecoveryApplied => -v.amount
    case RecoveryReversed => v.amount
    case WriteOffPosted => -v.amount
    case _ => 0
  }

  function UnearnedMove(e: EventType, v: Values): int {
    match e
    case AdvanceIssued => -v.deferred
    case RecoveryApplied => v.recognized
    case RecoveryReversed => -v.recognized
    case WriteOffPosted => v.reversed
    case _ => 0
  }

  lemma SeededMoves(e: EventType, v: Values, c: string, account: Account)
    requires account == SubscriberReceivable || account == UnearnedFee
    ensures Movement(Lines(Seeded(e), v, c), account, c)
            == if account == UnearnedFee then UnearnedMove(e, v) else ReceivableMove(e, v)
  {
    hide Movement, Lines;
    LinesOfConcat(SeededV1(e), DeferralLegs(e), v, c);
    MovementConcat(Lines(SeededV1(e), v, c), Lines(DeferralLegs(e), v, c), account, c);
    match e
    case AdvanceIssued =>
      MovementOfIssue(v, c, account);
      MovementOfPair(FeeIncome, UnearnedFee, FeeDeferAdj, true, v, c, account);
    case RecoveryApplied =>
      MovementOfPair(TelcoSettlementReceivable, SubscriberReceivable, Amount, false, v, c, account);
      MovementOfPair(UnearnedFee, FeeIncome, FeeRecognized, true, v, c, account);
    case RecoveryReversed =>
      MovementOfPair(SubscriberReceivable, TelcoSettlementReceivable, Amount, false, v, c, account);
      MovementOfPair(FeeIncome, UnearnedFee, FeeRecognized, true, v, c, account);
    case WriteOffPosted =>
      MovementOfPair(WriteOffExpense, SubscriberReceivable, Amount, false, v, c, account);
      MovementOfPair(UnearnedFee, WriteOffExpense, FeeUnearnedReversed, true, v, c, account);
    case WriteoffRecovery =>
      MovementOfPair(TelcoSettlementReceivable, WriteoffRecoveryIncome, Amount, false, v, c, account);
      NoLines(v, c, account);
    case _ =>
      MovementOfPair(TelcoSettlementReceivable, RecoverySuspense, Amount, false, v, c, account);
      NoLines(v, c, account);
  }

  lemma NoLines(v: Values, c: string, account: Account)
    ensures Movement(Lines([], v, c), account, c) == 0
  {
  }

  /** A seeded journal with good values is accepted by Post, balances in every currency, and moves the
      two cross-checked accounts as tabled. */
  lemma SeededJournal(e: EventType, v: Values, c: string)
    requires c != "" && GoodValues(e, v)
    ensures Accepted(Lines(Seeded(e), v, c), CHART)
    ensures forall d: string :: Net(Lines(Seeded(e), v, c), d) == 0
    ensures Movement(Lines(Seeded(e), v, c), SubscriberReceivable, c) == ReceivableMove(e, v)
    ensures Movement(Lines(Seeded(e), v, c), UnearnedFee, c) == UnearnedMove(e, v)
  {
    SeededPayable(e, v);
    TwoLegsSurvive(e, v, c);
    hide *;
    SeededApproved(e);
    ApprovedTemplatePosts(Seeded(e), v, c, CHART);
    SeededMoves(e, v, c, SubscriberReceivable);
    SeededMoves(e, v, c, UnearnedFee);
  }

  lemma SeededPayable(e: EventType, v: Values)
    requires GoodValues(e, v)
    ensures Payable(Seeded(e), v)
  {
  }

  lemma TwoLegsSurvive(e: EventType, v: Values, c: string)
    requires GoodValues(e, v)
    ensures |Lines(Seeded(e), v, c)| >= 2
  {
    var x := Seeded(e);
    assert x == x[..2] + x[2..];
    LinesOfConcat(x[..2], x[2..], v, c);
    assert x[..2][..1] == [x[0]] && [x[0]][..0] == [];
    assert |Lines([x[0]], v, c)| == 1;
  }

  lemma UpfrontOfSeeded(e: EventType, v: Values, c: string)
    requires v.deferred == v.recognized == v.reversed == 0
    ensures Lines(Seeded(e), v, c) == Lines(SeededV1(e), v, c)
  {
    LinesOfConcat(SeededV1(e), DeferralLegs(e), v, c);
    var y := DeferralLegs(e);
    if y != [] {
      assert y[..1] == [y[0]] && [y[0]][..0] == [];
      assert Lines([y[0]], v, c) == [];
    }
  }
}
