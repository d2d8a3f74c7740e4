/** The book's transactions, each composed of statements and all-or-nothing. */
module BookSteps {
  import opened BookTables
  import opened Common
  import opened Ledger
  import opened Templates

  function Min(x: int, y: int): int { if x <= y then x else y }

  function Amounts(amount: int, recognized: int): Values {
    Values(0, 0, amount, 0, recognized, 0)
  }

  // ------------------------------------------------------------------ origination

  /** The confirm saga's first transaction, up to the recorded attempt. */
  function Accept(b: Book, subscriber: Id, programme: Id, offer: PricedOffer, deferred: bool): Result<Book, BookError> {
    var adv := Advance(subscriber, programme, offer, deferred, None, Requested, 1, offer.repayment, None);
    var (b1, a) :- InsertAdvance(b, adv);
    var b2 :- Transition(b1, a, 1, Requested, Validated);
    var (b3, p) :- Reserve(b2, programme, offer.repayment);
    var b4 :- ReserveTransition(b3, a, 2, p);
    Transition(InsertAttempt(b4, a), a, 3, ExposureReserved, PendingFulfilment)
  }

  datatype Outcome = OutcomeConfirmed | OutcomeFailed | OutcomeNotFound | OutcomeUnknown

  /** The attempt state the caller expects, guessed from the advance's. */
  function CurrentAttemptState(s: AdvanceState): AttemptState {
    if s.FulfilmentUnknown? then AttemptUnknown else Sent
  }

  /** ADVANCE_ISSUED binds OUTSTANDING to the row's own figure, so an obligation other than
      disbursed plus fee would render unbalanced. */
  ghost function PostIssued(b: Book, a: Id, adv: Advance): Result<Book, BookError> {
    if adv.outstanding != adv.offer.disbursed + adv.offer.fee then Err(LedgerRefused)
    else
      PostEvent(b, IssuedKey(a), AdvanceIssued,
                Values(adv.offer.disbursed, adv.offer.fee, 0, if adv.deferred then adv.offer.fee else 0, 0, 0))
  }

  /** Applies a fulfilment outcome; an advance already settled is left alone. */
  ghost function Resolve(b: Book, a: Id, outcome: Outcome): Result<Book, BookError> {
    if a >= |b.advances| then Err(NotFound)
    else
      var adv := b.advances[a];
      if !IsPending(adv.state) then Ok(b)
      else
        match outcome
        case OutcomeConfirmed =>
          var b1 := ResolveAttempt(b, a, CurrentAttemptState(adv.state), Confirmed);
          var b2 :- Transition(b1, a, adv.version, adv.state, Active);
          var b3 :- ConfirmUtilisation(b2, adv.pool, adv.outstanding);
          PostIssued(b3, a, adv)
        case OutcomeUnknown =>
          var b1 := ResolveAttempt(b, a, CurrentAttemptState(adv.state), AttemptUnknown);
          if adv.state.PendingFulfilment? then Transition(b1, a, adv.version, adv.state, FulfilmentUnknown) else Ok(b1)
        case _ =>
          var b1 := ResolveAttempt(b, a, CurrentAttemptState(adv.state), AttemptFailed);
          var b2 :- Transition(b1, a, adv.version, adv.state, FulfilmentFailed);
          Release(b2, adv.pool, adv.outstanding)
  }

  /** A still-unknown enquiry: the attempt's state moves without a look at the advance. */
  function Reschedule(b: Book, a: Id): Result<Book, BookError> {
    if a >= |b.advances| then Ok(b) else Ok(ResolveAttempt(b, a, Sent, AttemptUnknown))
  }

  // ------------------------------------------------------------------ recovery

  /** One rung of the waterfall. */
  function Take(remaining: int, left: int): int {
    if remaining <= 0 || left <= 0 then 0 else Min(remaining, left)
  }

  datatype Split = Split(fee: int, principal: int)

  /** `amount` over the two components in order; the validator admits FEE and PRINCIPAL exactly once each. */
  function Divide(amount: int, feeLeft: int, principalLeft: int, feeFirst: bool): Split {
    if feeFirst then
      var f := Take(amount, feeLeft);
      Split(f, Take(amount - f, principalLeft))
    else
      var p := Take(amount, principalLeft);
      Split(Take(amount - p, feeLeft), p)
  }

  function Row(e: Id, a: Id, c: Component, amount: int): seq<Alloc> {
    if amount == 0 then [] else [Alloc(e, a, c, amount)]
  }

  function Rows(e: Id, a: Id, s: Split, feeFirst: bool): seq<Alloc> {
    if feeFirst then Row(e, a, FeePart, s.fee) + Row(e, a, PrincipalPart, s.principal)
    else Row(e, a, PrincipalPart, s.principal) + Row(e, a, FeePart, s.fee)
  }

  /** Fee and principal still owed, from what was recovered so far. */
  function WaterfallSplit(b: Book, a: Id, applied: int, feeFirst: bool): Split
    requires a < |b.advances|
  {
    var adv := b.advances[a];
    var feeRec, prinRec := Tally(b.allocs, OfAdvance(a, FeePart)), Tally(b.allocs, OfAdvance(a, PrincipalPart));
    var gross := adv.outstanding + feeRec + prinRec;
    Divide(applied, adv.offer.fee - feeRec, gross - adv.offer.fee - prinRec, feeFirst)
  }

  /** The recovery of `applied` from the live advance `a`, without the excess. */
  ghost function ApplyToAdvance(b: Book, e: Id, a: Id, applied: int, feeFirst: bool): Result<Book, BookError>
    requires a < |b.advances|
  {
    var adv := b.advances[a];
    var s := WaterfallSplit(b, a, applied, feeFirst);
    if s.fee + s.principal < applied then Err(WaterfallShort)
    else
      var b1 := b.(allocs := b.allocs + Rows(e, a, s, feeFirst));
      var left := adv.outstanding - applied;
      var b2 :- SetOutstanding(b1, a, adv.version, adv.state, if left == 0 then Closed else PartiallyRecovered, left);
      var b3 :- ReduceUtilisation(b2, adv.pool, applied);
      PostEvent(b3, AppliedKey(e), EventType.RecoveryApplied, Amounts(applied, if adv.deferred then s.fee else 0))
  }

  ghost function HoldExcess(b: Book, e: Id, excess: int): Result<Book, BookError> {
    if excess <= 0 then Ok(b)
    else
      var b1 :- InsertSuspense(b, e, excess);
      PostEvent(b1, SuspenseKey(e), EventType.RecoverySuspended, Amounts(excess, 0))
  }

  ghost function Quarantine(b: Book, e: Id, amount: int): Result<(Book, IngestResult), BookError> {
    var b1 :- InsertSuspense(b, e, amount);
    var b2 :- PostEvent(b1, QuarantineKey(e), EventType.RecoveryQuarantined, Amounts(amount, 0));
    var b3 :- SetEventState(b2, e, Pending, Quarantined);
    Ok((b3, IngestResult(Quarantined, 0, amount, false)))
  }

  ghost function WriteoffIncome(b: Book, e: Id, a: Id, amount: int): Result<(Book, IngestResult), BookError> {
    var b1 := b.(allocs := b.allocs + [Alloc(e, a, WriteoffIncomePart, amount)]);
    var b2 :- PostEvent(b1, IncomeKey(e), EventType.WriteoffRecovery, Amounts(amount, 0));
    var b3 :- SetEventState(b2, e, Pending, Allocated);
    Ok((b3, IngestResult(Allocated, amount, 0, false)))
  }

  datatype IngestCmd = IngestCmd(source: Id, payload: Payload, subscriber: Option<Id>, feeFirst: bool)

  /** The whole recovery on the subscriber's live advance, then any reversal parked for it. */
  ghost function Recover(b: Book, cmd: IngestCmd, a: Id): Result<(Book, IngestResult), BookError>
    requires a < |b.advances|
  {
    var amount, out := cmd.payload.amount, b.advances[a].outstanding;
    var applied := Min(amount, out);
    var b1 :- ApplyToAdvance(b, cmd.source, a, applied, cmd.feeFirst);
    var b2 :- HoldExcess(b1, cmd.source, amount - applied);
    var b3 :- SetEventState(b2, cmd.source, Pending, Allocated);
    var b4 :- ApplyParkedIfAny(b3, cmd.source, cmd.feeFirst);
    Ok((b4, IngestResult(Allocated, applied, amount - applied, applied == out)))
  }

  ghost function ClassifyAndApply(b: Book, cmd: IngestCmd): Result<(Book, IngestResult), BookError> {
    var e, amount := cmd.source, cmd.payload.amount;
    if e in b.events then Ok((b, IngestResult(b.events[e].state, 0, 0, false)))
    else
      var b1 := b.(events := b.events[e := Event(cmd.subscriber, amount, Pending)]);
      match cmd.subscriber
      case None =>
        var b2 :- SetEventState(b1, e, Pending, Unmatched);
        Ok((b2, IngestResult(Unmatched, 0, 0, false)))
      case Some(subscriber) =>
        match FindLive(b1.advances, subscriber)
        case Some(a) => if a >= |b1.advances| then Err(NotFound) else Recover(b1, cmd, a)
        case None =>
          match FindWrittenOff(b1, b1.journals, subscriber)
          case Some(w) => WriteoffIncome(b1, e, w, amount)
          case None => Quarantine(b1, e, amount)
  }

  /** One recovery event end to end: the same source id replays the stored answer for the same payload and
      is refused for another. */
  ghost function Ingest(b: Book, cmd: IngestCmd): Result<(Book, IngestResult), BookError> {
    if cmd.payload.amount <= 0 then Err(BadAmount)
    else if cmd.source in b.ingested then
      if b.ingested[cmd.source].payload != cmd.payload then Err(DivergentRecovery)
      else Ok((b, b.ingested[cmd.source].result))
    else
      var (b1, res) :- ClassifyAndApply(b, cmd);
      Ok((b1.(ingested := b1.ingested[cmd.source := Ingested(cmd.payload, res)]), res))
  }

  // ------------------------------------------------------------------ reversal

  function NetApplied(b: Book, e: Id): int {
    Tally(b.allocs, OfEvent(e, FeePart)) + Tally(b.allocs, OfEvent(e, PrincipalPart))
  }

  /** The rows of a claw-back: negative allocations, the outstanding grown back, the pool funding it again. */
  function Restore(b: Book, a: Id, rows: seq<Alloc>, amount: int): Result<Book, BookError>
    requires a < |b.advances|
  {
    var adv := b.advances[a];
    var to := if adv.state.Closed? then PartiallyRecovered else adv.state;
    var b1 := b.(allocs := b.allocs + rows);
    var b2 :- SetOutstanding(b1, a, adv.version, adv.state, to, adv.outstanding + amount);
    ReAddUtilisation(b2, adv.pool, amount)
  }

  /** A claw-back of `amount` from event `e`'s advance `a`, principal first under a fee-first waterfall. */
  ghost function ClawBack(b: Book, e: Id, a: Id, amount: int, r: Id, feeFirst: bool): Result<Book, BookError>
    requires a < |b.advances|
  {
    var s := BackSplit(b, e, amount, feeFirst);
    if s.fee + s.principal < amount then Err(WaterfallShort)
    else
      var b1 :- Restore(b, a, Rows(e, a, Split(-s.fee, -s.principal), !feeFirst), amount);
      PostEvent(b1, ReversedKey(e, r), EventType.RecoveryReversed,
                Amounts(amount, if b.advances[a].deferred then s.fee else 0))
  }

  /** What the reverse waterfall takes back from each component of an event. */
  function BackSplit(b: Book, e: Id, amount: int, feeFirst: bool): Split {
    Divide(amount, Tally(b.allocs, OfEvent(e, FeePart)), Tally(b.allocs, OfEvent(e, PrincipalPart)), !feeFirst)
  }

  /** Claws back an applied recovery. The reversal's own id admits it once. */
  ghost function ApplyReversal(b: Book, e: Id, amount: int, r: Id, feeFirst: bool): Result<Book, BookError> {
    if r in b.reversals then
      if b.reversals[r].original != e || b.reversals[r].amount != amount then Err(DivergentReversal) else Ok(b)
    else
      var net, a := NetApplied(b, e), ReceivableAdvance(b.allocs, e);
      if a.None? then Err(NoReceivableAllocations)
      else if amount > net then Err(ExceedsNetApplied)
      else if a.value >= |b.advances| then Err(NotFound)
      else if !IsLive(b.advances[a.value].state) && !b.advances[a.value].state.Closed? then Err(NotReversible)
      else
        var b1 :- ClawBack(b, e, a.value, amount, r, feeFirst);
        var b2 :- if amount == net then SetEventState(b1, e, Allocated, Reversed) else Ok(b1);
        Ok(b2.(reversals := b2.reversals[r := Reversal(e, amount, b.advances[a.value].state.Closed?)]))
  }

  /** What a savepoint makes of a reversal: collisions with the one-active index or the pool's headroom
      park it, any other error goes on. */
  datatype Guarded = Applied(book: Book) | Collided(reason: ParkReason) | Failed(error: BookError)

  ghost function ApplyReversalGuarded(b: Book, e: Id, amount: int, r: Id, feeFirst: bool): Guarded {
    match ApplyReversal(b, e, amount, r, feeFirst)
    case Ok(b1) => Applied(b1)
    case Err(ConcurrentAdvance) => Collided(SubscriberHasOpenAdvance)
    case Err(PoolOverAllocated) => Collided(PoolHeadroom)
    case Err(x) => Failed(x)
  }

  function SetParkReason(b: Book, k: Id, reason: ParkReason): Book
    requires k < |b.parked|
  {
    b.(parked := b.parked[k := b.parked[k].(reason := reason)])
  }

  function MarkApplied(b: Book, k: Id): Book
    requires k < |b.parked|
  {
    b.(parked := b.parked[k := b.parked[k].(waiting := false)])
  }

  /** A waiting reversal, tried again; a collision only refreshes the reason it waits for. */
  ghost function TryParked(b: Book, k: Id, e: Id, feeFirst: bool): Result<Book, BookError>
    requires k < |b.parked|
  {
    var p := b.parked[k];
    match ApplyReversalGuarded(b, e, p.amount, p.reversal, feeFirst)
    case Failed(x) => Err(x)
    case Collided(reason) => Ok(SetParkReason(b, k, reason))
    case Applied(b1) => if k >= |b1.parked| then Err(NotFound) else Ok(MarkApplied(b1, k))
  }

  ghost function ApplyParkedIfAny(b: Book, e: Id, feeFirst: bool): Result<Book, BookError> {
    match FindParked(b.parked, e)
    case None => Ok(b)
    case Some(k) => if k >= |b.parked| then Err(NotFound) else TryParked(b, k, e, feeFirst)
  }

  datatype ReverseResult = ReverseApplied(amount: int, reopened: bool) | ReverseParked

  ghost function Reverse(b: Book, r: Id, e: Id, amount: int, feeFirst: bool): Result<(Book, ReverseResult), BookError> {
    if amount <= 0 then Err(BadAmount)
    else if r in b.reversals then
      if b.reversals[r].original != e || b.reversals[r].amount != amount then Err(DivergentReversal)
      else Ok((b, ReverseApplied(b.reversals[r].amount, b.reversals[r].reopened)))
    else if e !in b.events then
      var b1 := Park(b, Parked(e, r, amount, true, OriginalUnseen));
      if FindParked(b1.parked, e).None? then Err(NotFound) else Ok((b1, ReverseParked))
    else if b.events[e].state != Allocated then
      Ok((Park(b, Parked(e, r, amount, true, OriginalNotAllocated)), ReverseParked))
    else
      match ApplyReversalGuarded(b, e, amount, r, feeFirst)
      case Failed(x) => Err(x)
      case Collided(reason) =>
        var b1 := Park(b, Parked(e, r, amount, true, reason));
        if !ParkConflict(b.parked, e, r) then Ok((b1, ReverseParked))
        else
          (match FindParked(b1.parked, e)
           case None => Err(NotFound)
           case Some(k) => if k >= |b1.parked| then Err(NotFound) else Ok((SetParkReason(b1, k, reason), ReverseParked)))
      case Applied(b1) =>
        if r !in b1.reversals then Err(NotFound)
        else
          var answer := ReverseApplied(amount, b1.reversals[r].reopened);
          match FindParked(b1.parked, e)
          case None => Ok((b1, answer))
          case Some(k) => if k >= |b1.parked| then Err(NotFound) else Ok((MarkApplied(b1, k), answer))
  }

  ghost function RetryParked(b: Book, k: Id, feeFirst: bool): Result<Book, BookError> {
    if k >= |b.parked| || !b.parked[k].waiting then Err(NotFound)
    else
      var e := b.parked[k].original;
      if e !in b.events then Ok(SetParkReason(b, k, OriginalUnseen))
      else if b.events[e].state != Allocated then Ok(SetParkReason(b, k, OriginalNotAllocated))
      else TryParked(b, k, e, feeFirst)
  }

  // ------------------------------------------------------------------ write-off

  /** The fee still owed, floored at zero. */
  function FeeRemaining(b: Book, a: Id): int
    requires a < |b.advances|
  {
    var f := b.advances[a].offer.fee - Tally(b.allocs, OfAdvance(a, FeePart));
    if f < 0 then 0 else f
  }

  predicate HasLiveWriteOff(b: Book, a: Id) {
    exists w | 0 <= w < |b.writeOffs| :: b.writeOffs[w].advance == a && !b.writeOffs[w].state.WoRejected?
  }

  /** `eligible`: the advance's delinquency bucket has reached the policy's minimum. */
  function RequestWriteOff(b: Book, a: Id, actor: Id, eligible: bool): Result<Book, BookError> {
    if a >= |b.advances| then Err(NotFound)
    else if !IsLive(b.advances[a].state) then Err(NotWritable)
    else if !eligible then Err(NotEligible)
    else
      var fee := FeeRemaining(b, a);
      var principal := b.advances[a].outstanding - fee;
      if HasLiveWriteOff(b, a) then Err(WriteOffExists)
      else if principal < 0 || principal + fee <= 0 then Err(CheckViolation)
      else Ok(b.(writeOffs := b.writeOffs + [WriteOff(a, principal, fee, actor, None, WoRequested)]))
  }

  function Decide(b: Book, w: Id, approver: Id, to: WriteOffState): Result<Book, BookError> {
    if w >= |b.writeOffs| || !b.writeOffs[w].state.WoRequested? then Err(NotFound)
    else if approver == b.writeOffs[w].requestedBy then Err(SelfApproval)
    else Ok(b.(writeOffs := b.writeOffs[w := b.writeOffs[w].(state := to, approvedBy := Some(approver))]))
  }

  /** `disputed`: an open debt dispute the caller was not authorised to override. */
  ghost function ApproveWriteOff(b: Book, w: Id, approver: Id, disputed: bool): Result<Book, BookError> {
    var b1 :- Decide(b, w, approver, WoApproved);
    var a := b1.writeOffs[w].advance;
    if a >= |b1.advances| then Err(NotFound)
    else if !IsLive(b1.advances[a].state) then Err(NotWritable)
    else if disputed then Err(DisputeBlocked)
    else
      var adv := b1.advances[a];
      var b2 :- SetOutstanding(b1, a, adv.version, adv.state, WrittenOff, 0);
      var b3 :- ReduceUtilisation(b2, adv.pool, adv.outstanding);
      var unearned := if adv.deferred then FeeRemaining(b1, a) else 0;
      var b4 :- PostEvent(b3, WriteOffKey(w), EventType.WriteOffPosted, Values(0, 0, adv.outstanding, 0, 0, unearned));
      Ok(b4.(writeOffs := b4.writeOffs[w := b4.writeOffs[w].(state := WoPosted)]))
  }

  function RejectWriteOff(b: Book, w: Id, approver: Id): Result<Book, BookError> {
    Decide(b, w, approver, WoRejected)
  }

  // ------------------------------------------------------------------ runs

  datatype Command =
    | CmdAccept(subscriber: Id, programme: Id, offer: PricedOffer, deferred: bool)
    | CmdResolve(advance: Id, outcome: Outcome)
    | CmdReschedule(advance: Id)
    | CmdIngest(ingest: IngestCmd)
    | CmdReverse(reversal: Id, original: Id, amount: int, feeFirst: bool)
    | CmdRetryParked(row: Id, feeFirst: bool)
    | CmdRequestWriteOff(advance: Id, actor: Id, eligible: bool)
    | CmdApproveWriteOff(writeOff: Id, actor: Id, disputed: bool)
    | CmdRejectWriteOff(writeOff: Id, actor: Id)

  ghost function Attempt(b: Book, c: Command): Result<Book, BookError> {
    match c
    case CmdAccept(subscriber, programme, offer, deferred) => Accept(b, subscriber, programme, offer, deferred)
    case CmdResolve(a, outcome) => Resolve(b, a, outcome)
    case CmdReschedule(a) => Reschedule(b, a)
    case CmdIngest(cmd) => var (b1, _) :- Ingest(b, cmd); Ok(b1)
    case CmdReverse(r, e, amount, feeFirst) => var (b1, _) :- Reverse(b, r, e, amount, feeFirst); Ok(b1)
    case CmdRetryParked(k, feeFirst) => RetryParked(b, k, feeFirst)
    case CmdRequestWriteOff(a, actor, eligible) => RequestWriteOff(b, a, actor, eligible)
    case CmdApproveWriteOff(w, actor, disputed) => ApproveWriteOff(b, w, actor, disputed)
    case CmdRejectWriteOff(w, actor) => RejectWriteOff(b, w, actor)
  }

  /** One transaction: an error rolls everything back. */
  ghost function Step(b: Book, c: Command): Book {
    match Attempt(b, c) case Ok(b1) => b1 case Err(_) => b
  }

  ghost function Run(b: Book, cs: seq<Command>): Book {
    if cs == [] then b else Step(Run(b, cs[..|cs| - 1]), cs[|cs| - 1])
  }

  /** Funded pools and empty tables. */
  predicate Fresh(b: Book) {
    && (forall p | 0 <= p < |b.pools| :: b.pools[p].committed >= 0 && b.pools[p].reserved == b.pools[p].utilised == 0)
    && b == Book(b.pools, [], map[], map[], [], map[], map[], [], [], [])
  }
}
