/** The tables of the credit book and the SQL statements over them: each statement is one function that
    returns the changed tables, or the error it raises. */
module BookTables {
  import opened Common
  import opened Ledger
  import opened Seqs
  import opened Templates

  /** Generated keys of advances, pools, write-offs and parked rows are row numbers. */
  type Id = nat

  // ------------------------------------------------------------------ rows

  datatype AdvanceState =
    | Requested
    | Validated
    | ExposureReserved
    | PendingFulfilment
    | FulfilmentUnknown
    | Active
    | PartiallyRecovered
    | Closed
    | FulfilmentFailed
    | Declined
    | WrittenOff

  predicate CanTransition(from: AdvanceState, to: AdvanceState) {
    match from
    case Requested => to.Validated? || to.Declined?
    case Validated => to.ExposureReserved? || to.Declined?
    case ExposureReserved => to.PendingFulfilment? || to.Declined?
    case PendingFulfilment => to.Active? || to.FulfilmentFailed? || to.FulfilmentUnknown?
    case FulfilmentUnknown => to.Active? || to.FulfilmentFailed?
    case Active => to.PartiallyRecovered? || to.Closed? || to.WrittenOff?
    case PartiallyRecovered => to.PartiallyRecovered? || to.Closed? || to.WrittenOff?
    case Closed => to.PartiallyRecovered?
    case _ => false
  }

  /** The states of the one-active partial unique index. */
  predicate IsOpen(s: AdvanceState) {
    !s.Closed? && !s.FulfilmentFailed? && !s.Declined? && !s.WrittenOff?
  }

  /** A receivable exists and is not yet paid. */
  predicate IsLive(s: AdvanceState) { s.Active? || s.PartiallyRecovered? }

  /** Exposure is reserved and the outcome still unknown. */
  predicate IsPending(s: AdvanceState) { s.PendingFulfilment? || s.FulfilmentUnknown? }

  datatype AttemptState = Sent | Confirmed | AttemptFailed | AttemptUnknown

  datatype Pool = Pool(programme: Id, active: bool, committed: int, reserved: int, utilised: int) {
    /** The table's CHECK constraints. */
    predicate Fits() { reserved >= 0 && utilised >= 0 && reserved + utilised <= committed }
  }

  datatype Offer = Offer(face: int, fee: int, disbursed: int, repayment: int, feeAdded: bool)

  /** What the offer ladder produces, under either fee model. */
  predicate Priced(o: Offer) {
    && o.fee >= 0 && o.disbursed > 0
    && (if o.feeAdded then o.disbursed == o.face && o.repayment == o.face + o.fee
        else o.disbursed == o.face - o.fee && o.repayment == o.face)
  }

  type PricedOffer = o: Offer | Priced(o) witness Offer(1, 0, 1, 1, false)

  datatype Advance = Advance(subscriber: Id, programme: Id, offer: PricedOffer, deferred: bool, pool: Option<Id>,
                             state: AdvanceState, version: nat, outstanding: int, attempt: Option<AttemptState>)

  datatype EventState = Pending | Allocated | Quarantined | Unmatched | Reversed

  datatype Event = Event(subscriber: Option<Id>, amount: int, state: EventState)

  datatype Component = FeePart | PrincipalPart | WriteoffIncomePart

  datatype Alloc = Alloc(event: Id, advance: Id, component: Component, amount: int)

  /** The fields the request hash of a recovery covers; equal hashes stand for equal fields. */
  datatype Payload = Payload(amount: int, token: string, occurredAt: int)

  datatype IngestResult = IngestResult(state: EventState, applied: int, excess: int, closed: bool)

  datatype Ingested = Ingested(payload: Payload, result: IngestResult)

  /** A completed reversal's idempotency record: the hashed fields and the stored answer. */
  datatype Reversal = Reversal(original: Id, amount: int, reopened: bool)

  datatype ParkReason = OriginalUnseen | OriginalNotAllocated | SubscriberHasOpenAdvance | PoolHeadroom

  datatype Parked = Parked(original: Id, reversal: Id, amount: int, waiting: bool, reason: ParkReason)

  datatype WriteOffState = WoRequested | WoApproved | WoPosted | WoRejected

  datatype WriteOff = WriteOff(advance: Id, principal: int, fee: int, requestedBy: Id, approvedBy: Option<Id>,
                               state: WriteOffState)

  /** Business event key and event type; every key belongs to one event type. */
  datatype JournalKey =
    | IssuedKey(advance: Id)
    | AppliedKey(event: Id)
    | SuspenseKey(event: Id)
    | QuarantineKey(event: Id)
    | IncomeKey(event: Id)
    | ReversedKey(event: Id, reversal: Id)
    | WriteOffKey(writeOff: Id)

  datatype Book = Book(pools: seq<Pool>, advances: seq<Advance>,
                       ingested: map<Id, Ingested>, events: map<Id, Event>, allocs: seq<Alloc>, suspense: map<Id, int>,
                       reversals: map<Id, Reversal>, parked: seq<Parked>, writeOffs: seq<WriteOff>,
                       journals: seq<Journal<JournalKey, Account>>)

  datatype BookError =
    | NotFound
    | IllegalTransition
    | StaleVersion
    | ConcurrentAdvance
    | NoFundingCapacity
    | PoolOverAllocated
    | ReservationUnderflow
    | UtilisationUnderflow
    | CheckViolation
    | LedgerRefused
    | BadAmount
    | DivergentRecovery
    | DivergentReversal
    | WaterfallShort
    | NoReceivableAllocations
    | ExceedsNetApplied
    | NotReversible
    | NotWritable
    | NotEligible
    | WriteOffExists
    | SelfApproval
    | DisputeBlocked

  /** The book runs in one currency. */
  const CURRENCY := "NGN"

  // ------------------------------------------------------------------ allocation sums

  datatype Filter = OfAdvance(advance: Id, component: Component) | OfEvent(event: Id, component: Component)

  predicate Matches(r: Alloc, f: Filter) {
    r.component == f.component && match f case OfAdvance(a, _) => r.advance == a case OfEvent(e, _) => r.event == e
  }

  /** The net of the allocation rows a filter selects. */
  function Tally(allocs: seq<Alloc>, f: Filter): int {
    if allocs == [] then 0
    else Tally(allocs[..|allocs| - 1], f) + if Matches(allocs[|allocs| - 1], f) then allocs[|allocs| - 1].amount else 0
  }

  /** MIN(advance_id) over an event's FEE and PRINCIPAL rows. */
  function ReceivableAdvance(allocs: seq<Alloc>, e: Id): Option<Id> {
    if allocs == [] then None
    else
      var r := allocs[|allocs| - 1];
      var rest := ReceivableAdvance(allocs[..|allocs| - 1], e);
      if r.event != e || r.component == WriteoffIncomePart then rest
      else if rest.Some? && rest.value <= r.advance then rest
      else Some(r.advance)
  }

  // ------------------------------------------------------------------ funding_pools

  predicate HasHeadroom(p: Pool, programme: Id, amount: int) {
    p.programme == programme && p.active && p.committed - p.reserved - p.utilised >= amount
  }

  /** The first pool, in key order, with headroom. */
  function PoolWithHeadroom(pools: seq<Pool>, programme: Id, amount: int): Option<Id> {
    if pools == [] then None
    else
      var rest := PoolWithHeadroom(pools[..|pools| - 1], programme, amount);
      if rest.Some? then rest
      else if HasHeadroom(pools[|pools| - 1], programme, amount) then Some(|pools| - 1)
      else None
  }

  /** A row update, under the table's CHECK constraints. */
  function WritePool(b: Book, p: Id, q: Pool): Result<Book, BookError>
    requires p < |b.pools|
  {
    if q.Fits() then Ok(b.(pools := b.pools[p := q])) else Err(PoolOverAllocated)
  }

  function Reserve(b: Book, programme: Id, amount: int): Result<(Book, Id), BookError> {
    var p := PoolWithHeadroom(b.pools, programme, amount);
    if p.None? || p.value >= |b.pools| then Err(NoFundingCapacity)
    else
      var q := b.pools[p.value];
      var b1 :- WritePool(b, p.value, q.(reserved := q.reserved + amount));
      Ok((b1, p.value))
  }

  function ConfirmUtilisation(b: Book, p: Option<Id>, amount: int): Result<Book, BookError> {
    if p.None? || p.value >= |b.pools| || b.pools[p.value].reserved < amount then Err(ReservationUnderflow)
    else
      var q := b.pools[p.value];
      WritePool(b, p.value, q.(reserved := q.reserved - amount, utilised := q.utilised + amount))
  }

  function Release(b: Book, p: Option<Id>, amount: int): Result<Book, BookError> {
    if p.None? || p.value >= |b.pools| || b.pools[p.value].reserved < amount then Err(ReservationUnderflow)
    else
      var q := b.pools[p.value];
      WritePool(b, p.value, q.(reserved := q.reserved - amount))
  }

  function ReduceUtilisation(b: Book, p: Option<Id>, amount: int): Result<Book, BookError> {
    if p.None? || p.value >= |b.pools| || b.pools[p.value].utilised < amount then Err(UtilisationUnderflow)
    else
      var q := b.pools[p.value];
      WritePool(b, p.value, q.(utilised := q.utilised - amount))
  }

  /** A reversed recovery is funded again: no guard but the headroom CHECK. */
  function ReAddUtilisation(b: Book, p: Option<Id>, amount: int): Result<Book, BookError> {
    if p.None? || p.value >= |b.pools| then Err(NotFound)
    else
      var q := b.pools[p.value];
      WritePool(b, p.value, q.(utilised := q.utilised + amount))
  }

  // ------------------------------------------------------------------ advances and attempts

  /** Another row than `a` holds the subscriber's place in the one-active index. */
  predicate SlotTaken(b: Book, a: Id, subscriber: Id) {
    exists i | 0 <= i < |b.advances| :: i != a && b.advances[i].subscriber == subscriber && IsOpen(b.advances[i].state)
  }

  function InsertAdvance(b: Book, adv: Advance): Result<(Book, Id), BookError> {
    if IsOpen(adv.state) && SlotTaken(b, |b.advances|, adv.subscriber) then Err(ConcurrentAdvance)
    else if adv.outstanding < 0 then Err(CheckViolation)
    else Ok((b.(advances := b.advances + [adv]), |b.advances|))
  }

  /** UPDATE … WHERE advance_id AND version AND state: zero rows is a stale version; the one-active index
      and the outstanding CHECK guard what is written. */
  function WriteAdvance(b: Book, a: Id, version: nat, from: AdvanceState, adv: Advance): Result<Book, BookError> {
    if a >= |b.advances| || b.advances[a].version != version || b.advances[a].state != from then Err(StaleVersion)
    else if IsOpen(adv.state) && SlotTaken(b, a, adv.subscriber) then Err(ConcurrentAdvance)
    else if adv.outstanding < 0 then Err(CheckViolation)
    else Ok(b.(advances := b.advances[a := adv.(version := version + 1)]))
  }

  function Transition(b: Book, a: Id, version: nat, from: AdvanceState, to: AdvanceState): Result<Book, BookError> {
    if !CanTransition(from, to) then Err(IllegalTransition)
    else if a >= |b.advances| then Err(StaleVersion)
    else WriteAdvance(b, a, version, from, b.advances[a].(state := to))
  }

  function ReserveTransition(b: Book, a: Id, version: nat, p: Id): Result<Book, BookError> {
    if a >= |b.advances| then Err(StaleVersion)
    else WriteAdvance(b, a, version, Validated, b.advances[a].(state := ExposureReserved, pool := Some(p)))
  }

  /** ApplyRecovery and ApplyReversal run the same UPDATE: a new outstanding and a legal or unchanged state. */
  function SetOutstanding(b: Book, a: Id, version: nat, from: AdvanceState, to: AdvanceState, outstanding: int)
    : Result<Book, BookError>
  {
    if !CanTransition(from, to) && from != to then Err(IllegalTransition)
    else if a >= |b.advances| then Err(StaleVersion)
    else WriteAdvance(b, a, version, from, b.advances[a].(state := to, outstanding := outstanding))
  }

  function InsertAttempt(b: Book, a: Id): Book
    requires a < |b.advances|
  {
    b.(advances := b.advances[a := b.advances[a].(attempt := Some(Sent))])
  }

  /** The guarded attempt update, whose "no such row" its callers swallow. */
  function ResolveAttempt(b: Book, a: Id, from: AttemptState, to: AttemptState): Book
    requires a < |b.advances|
  {
    if b.advances[a].attempt == Some(from) then b.(advances := b.advances[a := b.advances[a].(attempt := Some(to))]) else b
  }

  /** The oldest live advance of a subscriber. */
  function FindLive(advances: seq<Advance>, subscriber: Id): Option<Id> {
    if advances == [] then None
    else
      var rest := FindLive(advances[..|advances| - 1], subscriber);
      if rest.Some? then rest
      else
        var adv := advances[|advances| - 1];
        if adv.subscriber == subscriber && IsLive(adv.state) then Some(|advances| - 1) else None
  }

  /** The journal key is that of a write-off of one of the subscriber's advances. */
  predicate IsWriteOffOf(b: Book, k: JournalKey, subscriber: Id) {
    && k.WriteOffKey? && k.writeOff < |b.writeOffs| && b.writeOffs[k.writeOff].advance < |b.advances|
    && b.advances[b.writeOffs[k.writeOff].advance].subscriber == subscriber
  }

  /** The advance of a subscriber that was written off last: a written-off row is never updated again, so
      the newest update is the newest WRITE_OFF journal. */
  function FindWrittenOff(b: Book, journals: seq<Journal<JournalKey, Account>>, subscriber: Id): Option<Id> {
    if journals == [] then None
    else
      var k := journals[|journals| - 1].key;
      if IsWriteOffOf(b, k, subscriber) then Some(b.writeOffs[k.writeOff].advance)
      else FindWrittenOff(b, journals[..|journals| - 1], subscriber)
  }

  // ------------------------------------------------------------------ recovery tables

  function SetEventState(b: Book, e: Id, from: EventState, to: EventState): Result<Book, BookError> {
    if e !in b.events || b.events[e].state != from then Err(NotFound)
    else Ok(b.(events := b.events[e := b.events[e].(state := to)]))
  }

  function InsertSuspense(b: Book, e: Id, amount: int): Result<Book, BookError> {
    if amount <= 0 || e in b.suspense then Err(CheckViolation)
    else Ok(b.(suspense := b.suspense[e := amount]))
  }

  /** Both source ids are unique in pending_reversals; a conflict inserts nothing. */
  predicate ParkConflict(parked: seq<Parked>, original: Id, reversal: Id) {
    exists k | 0 <= k < |parked| :: parked[k].original == original || parked[k].reversal == reversal
  }

  function Park(b: Book, p: Parked): Book {
    if ParkConflict(b.parked, p.original, p.reversal) then b else b.(parked := b.parked + [p])
  }

  function FindParked(parked: seq<Parked>, original: Id): Option<Id> {
    if parked == [] then None
    else
      var p := parked[|parked| - 1];
      if p.original == original && p.waiting then Some(|parked| - 1)
      else FindParked(parked[..|parked| - 1], original)
  }

  // ------------------------------------------------------------------ postings

  /** Renders the event's active template and posts it: a taken key is quiet for the same lines, an error
      for others. */
  ghost function PostEvent(b: Book, key: JournalKey, e: EventType, v: Values): Result<Book, BookError> {
    var lines := Lines(Seeded(e), v, CURRENCY);
    if !Accepted(lines, CHART) then Err(LedgerRefused)
    else if KeyTaken(b.journals, key) then
      if forall i | 0 <= i < |b.journals| && b.journals[i].key == key :: multiset(b.journals[i].lines) == multiset(lines)
      then Ok(b) else Err(LedgerRefused)
    else Ok(b.(journals := b.journals + [Journal(key, lines)]))
  }
}
