/** The parking queue over whole runs: what takes a row out of it, and what it keeps out of the book. */
module BookQueue {
  import opened BookAnswers
  import opened BookIngest
  import opened BookInvariant
  import opened BookMoney
  import opened BookOrigination
  import opened BookReferences
  import opened BookReversal
  import opened BookRuns
  import opened BookSafety
  import opened BookSteps
  import opened BookTables
  import opened BookWriteOff
  import opened Common
  import opened Ledger
  import opened Templates

  /** Some row waits to apply the reversal `r`. */
  predicate WaitsFor(b: Book, r: Id) {
    exists k | 0 <= k < |b.parked| :: b.parked[k].waiting && b.parked[k].reversal == r
  }

  /** Row `k` is the same parked reversal; it may stop waiting, but not before its original is on the book. */
  ghost predicate RowKept(b: Book, b2: Book, k: Id)
    requires k < |b.parked| && k < |b2.parked|
  {
    var p, q := b.parked[k], b2.parked[k];
    && q.original == p.original && q.reversal == p.reversal && q.amount == p.amount && (q.waiting ==> p.waiting)
    && (p.waiting && p.original !in b2.events ==> q.waiting)
  }

  /** What a transaction may do to the queue and the reversals: `mine` are the reversals it names and `seen` the
      events it brings. Only a reversal that is named, or that a row waits for, is ever put on record. */
  ghost predicate QueueStep(b: Book, b2: Book, mine: set<Id>, seen: set<Id>) {
    && |b.parked| <= |b2.parked|
    && (forall k | 0 <= k < |b.parked| :: RowKept(b, b2, k))
    && (forall k | |b.parked| <= k < |b2.parked| :: b2.parked[k].reversal in mine)
    && (forall r | r in b2.reversals :: r in b.reversals || r in mine || WaitsFor(b, r))
    && b2.events.Keys <= b.events.Keys + seen
  }

  lemma SameQueue(b: Book, b2: Book, mine: set<Id>, seen: set<Id>)
    requires b2.parked == b.parked && b2.reversals == b.reversals && b2.events.Keys <= b.events.Keys + seen
    ensures QueueStep(b, b2, mine, seen)
  {
  }

  /** The queue does not see the idempotency records of ingests. */
  lemma QueueIgnoresIngested(b: Book, b2: Book, mine: set<Id>, seen: set<Id>, m: map<Id, Ingested>)
    requires QueueStep(b, b2, mine, seen)
    ensures QueueStep(b, b2.(ingested := m), mine, seen)
  {
    hide WaitsFor;
    var b3 := b2.(ingested := m);
    forall k | 0 <= k < |b.parked| ensures RowKept(b, b3, k) {
      assert RowKept(b, b2, k);
    }
  }

  lemma QueueAfterBooking(b: Book, b3: Book, b4: Book, e: Id)
    requires b3.parked == b.parked && b3.reversals == b.reversals && b3.events.Keys <= b.events.Keys + {e}
    requires QueueStep(b3, b4, {}, {})
    ensures QueueStep(b, b4, {}, {e})
  {
    forall k | 0 <= k < |b.parked| ensures RowKept(b, b4, k) {
      assert RowKept(b3, b4, k);
    }
    forall r | r in b4.reversals && r !in b.reversals ensures WaitsFor(b, r) {
      assert WaitsFor(b3, r);
    }
  }

  lemma ParkQueue(b: Book, p: Parked)
    ensures QueueStep(b, Park(b, p), {p.reversal}, {})
    ensures |b.parked| <= |Park(b, p).parked|
  {
    hide WaitsFor, ParkConflict;
  }

  /** Another reason, or, for an original on the book, the end of the wait. */
  lemma RewriteQueue(b: Book, b2: Book, k: Id, row: Parked, mine: set<Id>, seen: set<Id>)
    requires QueueStep(b, b2, mine, seen) && k < |b2.parked|
    requires row == b2.parked[k].(reason := row.reason, waiting := row.waiting) && (row.waiting ==> b2.parked[k].waiting)
    requires row.waiting == b2.parked[k].waiting || row.original in b2.events
    ensures QueueStep(b, b2.(parked := b2.parked[k := row]), mine, seen)
  {
    hide WaitsFor;
    var b3 := b2.(parked := b2.parked[k := row]);
    forall i | 0 <= i < |b.parked| ensures RowKept(b, b3, i) {
      assert RowKept(b, b2, i);
    }
    forall i | |b.parked| <= i < |b3.parked| ensures b3.parked[i].reversal in mine {
      assert b2.parked[i].reversal in mine;
    }
  }

  lemma ReversalQueue(b: Book, e: Id, amount: int, r: Id, feeFirst: bool)
    requires Base(b) && e in b.events && b.events[e].state.Allocated? && amount > 0
    requires ApplyReversal(b, e, amount, r, feeFirst).Ok?
    ensures var b2 := ApplyReversal(b, e, amount, r, feeFirst).value;
            b2.parked == b.parked && b2.reversals.Keys <= b.reversals.Keys + {r} && b2.events.Keys == b.events.Keys
  {
    AppliedKeepsBase(b, e, amount, r, feeFirst);
    if r in b.reversals {
      hide ClawBack, Base, NetApplied, ReceivableAdvance;
    } else {
      OnlyThisReversal(b, e, amount, r, feeFirst);
      hide ApplyReversal, Base;
    }
  }

  lemma TryParkedQueue(b: Book, k: Id, e: Id, feeFirst: bool)
    requires Base(b) && k < |b.parked| && b.parked[k].waiting && b.parked[k].original == e
    requires e in b.events && b.events[e].state.Allocated? && TryParked(b, k, e, feeFirst).Ok?
    ensures QueueStep(b, TryParked(b, k, e, feeFirst).value, {}, {})
  {
    hide ApplyReversal, Base;
    var p := b.parked[k];
    ParkedPositive(b, k);
    if ApplyReversal(b, e, p.amount, p.reversal, feeFirst).Ok? {
      ReversalQueue(b, e, p.amount, p.reversal, feeFirst);
    }
  }

  lemma ParkedIfAnyQueue(b: Book, b3: Book, e: Id, feeFirst: bool)
    requires Base(b3) && e in b3.events && b3.events[e].state.Allocated?
    requires b3.parked == b.parked && b3.reversals == b.reversals && b3.events.Keys <= b.events.Keys + {e}
    ensures var res := ApplyParkedIfAny(b3, e, feeFirst); res.Ok? ==> QueueStep(b, res.value, {}, {e})
  {
    hide Base, TryParked;
    FindParkedIs(b3.parked, e);
    hide FindParked;
    var found := FindParked(b3.parked, e);
    if found.Some? {
      if TryParked(b3, found.value, e, feeFirst).Ok? {
        TryParkedQueue(b3, found.value, e, feeFirst);
        hide TryParked, QueueStep;
        QueueAfterBooking(b, b3, TryParked(b3, found.value, e, feeFirst).value, e);
      }
    } else {
      SameQueue(b, b3, {}, {e});
    }
  }

  lemma RecoverQueue(b: Book, cmd: IngestCmd, a: Id)
    requires Inv(b) && cmd.payload.amount > 0 && cmd.source !in b.events
    requires a < |b.advances| && IsLive(b.advances[a].state)
    requires Recover(WithEvent(b, cmd, Pending), cmd, a).Ok?
    ensures QueueStep(b, Recover(WithEvent(b, cmd, Pending), cmd, a).value.0, {}, {cmd.source})
  {
    hide *;
    InvAdvance(b, a);
    FreshSource(b, cmd.source);
    RecoverParts(b, cmd, a);
    BookedKeepsBase(b, cmd, a);
    WithEventKeys(b, cmd, Allocated);
    ParkedIfAnyQueue(b, BookedRecovery(b, cmd, a), cmd.source, cmd.feeFirst);
  }

  /** Without a live advance the queue is not looked at. */
  lemma NotLiveQueue(b: Book, cmd: IngestCmd)
    requires cmd.source !in b.events && ClassifyAndApply(b, cmd).Ok?
    requires cmd.subscriber.Some? ==> FindLive(b.advances, cmd.subscriber.value).None?
    ensures var z := ClassifyAndApply(b, cmd).value.0;
            z.parked == b.parked && z.reversals == b.reversals && z.events.Keys <= b.events.Keys + {cmd.source}
  {
    hide Recover, FindLive, FindWrittenOff, Lines, Seeded, Accepted, KeyTaken;
  }

  lemma LiveQueue(b: Book, cmd: IngestCmd, a: Id)
    requires cmd.source !in b.events && cmd.subscriber.Some? && ClassifyAndApply(b, cmd).Ok?
    requires FindLive(b.advances, cmd.subscriber.value) == Some(a) && a < |b.advances|
    ensures ClassifyAndApply(b, cmd) == Recover(WithEvent(b, cmd, Pending), cmd, a)
  {
    hide Recover, FindLive;
  }

  lemma ClassifyQueue(b: Book, cmd: IngestCmd)
    requires Inv(b) && cmd.payload.amount > 0 && cmd.source !in b.ingested && ClassifyAndApply(b, cmd).Ok?
    ensures QueueStep(b, ClassifyAndApply(b, cmd).value.0, {}, {cmd.source})
  {
    hide Base, Recover, FindLive, ClassifyAndApply, QueueStep;
    assert cmd.source !in b.events;
    if cmd.subscriber.Some? {
      FindLiveIs(b.advances, cmd.subscriber.value);
    }
    var live := if cmd.subscriber.Some? then FindLive(b.advances, cmd.subscriber.value) else None;
    if live.Some? {
      LiveQueue(b, cmd, live.value);
      RecoverQueue(b, cmd, live.value);
    } else {
      NotLiveQueue(b, cmd);
      SameQueue(b, ClassifyAndApply(b, cmd).value.0, {}, {cmd.source});
    }
  }

  lemma IngestQueue(b: Book, cmd: IngestCmd)
    requires Inv(b) && Ingest(b, cmd).Ok?
    ensures QueueStep(b, Ingest(b, cmd).value.0, {}, {cmd.source})
  {
    hide Base, ClassifyAndApply, QueueStep;
    if cmd.source in b.ingested {
      SameQueue(b, b, {}, {cmd.source});
    } else {
      ClassifyQueue(b, cmd);
      var (b1, res) := ClassifyAndApply(b, cmd).value;
      QueueIgnoresIngested(b, b1, {}, {cmd.source}, b1.ingested[cmd.source := Ingested(cmd.payload, res)]);
    }
  }

  lemma ReverseQueue(b: Book, r: Id, e: Id, amount: int, feeFirst: bool)
    requires Inv(b) && Reverse(b, r, e, amount, feeFirst).Ok?
    ensures QueueStep(b, Reverse(b, r, e, amount, feeFirst).value.0, {r}, {})
  {
    hide Base, QueueStep, Park, FindParked, ApplyReversal, ParkConflict;
    SameQueue(b, b, {r}, {});
    forall reason: ParkReason ensures QueueStep(b, Park(b, Parked(e, r, amount, true, reason)), {r}, {}) {
      ParkQueue(b, Parked(e, r, amount, true, reason));
    }
    if amount > 0 && r !in b.reversals && e in b.events && b.events[e].state.Allocated? {
      match ApplyReversalGuarded(b, e, amount, r, feeFirst)
      case Failed(x) =>
      case Collided(reason) =>
        var b1 := Park(b, Parked(e, r, amount, true, reason));
        var found := FindParked(b1.parked, e);
        if found.Some? && found.value < |b1.parked| {
          RewriteQueue(b, b1, found.value, b1.parked[found.value].(reason := reason), {r}, {});
        }
      case Applied(b1) =>
        ReversalQueue(b, e, amount, r, feeFirst);
        AppliedQueue(b, b1, r);
        FindParkedIs(b1.parked, e);
        var found := FindParked(b1.parked, e);
        if found.Some? {
          RewriteQueue(b, b1, found.value, b1.parked[found.value].(waiting := false), {r}, {});
        }
    }
  }

  lemma AppliedQueue(b: Book, b2: Book, r: Id)
    requires b2.parked == b.parked && b2.reversals.Keys <= b.reversals.Keys + {r} && b2.events.Keys == b.events.Keys
    ensures QueueStep(b, b2, {r}, {})
  {
    hide WaitsFor;
  }

  lemma RetryQueue(b: Book, k: Id, feeFirst: bool)
    requires Inv(b) && RetryParked(b, k, feeFirst).Ok?
    ensures QueueStep(b, RetryParked(b, k, feeFirst).value, {}, {})
  {
    hide Base, TryParked;
    var e := b.parked[k].original;
    if e in b.events && b.events[e].state.Allocated? {
      TryParkedQueue(b, k, e, feeFirst);
    }
  }

  lemma OutcomeBooks(b: Book, a: Id)
    requires a < |b.advances| && b.advances[a].pool.Some? && b.advances[a].pool.value < |b.pools|
    ensures forall z: Book | z == ConfirmedBook(b, a) || z == UnknownBook(b, a) || z == FailedBook(b, a) ::
              z.parked == b.parked && z.reversals == b.reversals && z.events == b.events
  {
    hide Lines, Seeded;
  }

  lemma ResolveQueue(b: Book, a: Id, outcome: Outcome)
    requires Inv(b) && Resolve(b, a, outcome).Ok?
    ensures QueueStep(b, Resolve(b, a, outcome).value, {}, {})
  {
    hide Inv, QueueStep, ConfirmedBook, UnknownBook, FailedBook, Core, AdvanceOk;
    var z := Resolve(b, a, outcome).value;
    if a < |b.advances| && IsPending(b.advances[a].state) {
      InvAdvance(b, a);
      NotIssuedHere(b, a);
      ResolveGoesThrough(b, a, outcome);
      OutcomeBooks(b, a);
      hide Resolve;
      SameQueue(b, z, {}, {});
    } else {
      SameQueue(b, b, {}, {});
    }
  }

  lemma NotIssuedHere(b: Book, a: Id)
    requires Inv(b) && a < |b.advances| && IsPending(b.advances[a].state)
    ensures !KeyTaken(b.journals, IssuedKey(a))
  {
    NotIssuedYet(b, a);
  }

  lemma ApproveQueue(b: Book, w: Id, actor: Id, disputed: bool)
    requires Inv(b) && ApproveWriteOff(b, w, actor, disputed).Ok?
    ensures QueueStep(b, ApproveWriteOff(b, w, actor, disputed).value, {}, {})
  {
    ApproveOutcome(b, w, actor, disputed);
    NotPostedYet(b, w);
    ApproveParts(b, w, actor);
    CrystallisedFields(b, w, b.writeOffs[w].advance);
    hide ApproveWriteOff, Inv, Core, KeyTaken, Crystallised;
  }

  lemma OtherQueue(b: Book, c: Command)
    requires Inv(b) && BookSteps.Attempt(b, c).Ok?
    requires c.CmdAccept? || c.CmdReschedule? || c.CmdRequestWriteOff? || c.CmdRejectWriteOff?
    ensures QueueStep(b, Step(b, c), {}, {})
  {
    hide Inv, Base, Accept, FeeRemaining, HasLiveWriteOff, SlotTaken, Core;
    if c.CmdAccept? {
      PoolsFit(b);
      AcceptGoesThrough(b, c.subscriber, c.programme, c.offer, c.deferred);
    }
  }

  function Named(c: Command): set<Id> {
    if c.CmdReverse? then {c.reversal} else {}
  }

  function Brought(c: Command): set<Id> {
    if c.CmdIngest? then {c.ingest.source} else {}
  }

  /** Every transaction, committed or rolled back. */
  lemma StepQueue(b: Book, c: Command)
    requires Inv(b)
    ensures QueueStep(b, Step(b, c), Named(c), Brought(c))
  {
    hide Inv, Accept, Resolve, Reschedule, Ingest, Reverse, RetryParked, RequestWriteOff, ApproveWriteOff,
      RejectWriteOff, WaitsFor;
    if BookSteps.Attempt(b, c).Ok? {
      match c
      case CmdResolve(a, outcome) => ResolveQueue(b, a, outcome);
      case CmdIngest(cmd) => IngestQueue(b, cmd);
      case CmdReverse(r, e, amount, feeFirst) => ReverseQueue(b, r, e, amount, feeFirst);
      case CmdRetryParked(k, feeFirst) => RetryQueue(b, k, feeFirst);
      case CmdApproveWriteOff(w, actor, disputed) => ApproveQueue(b, w, actor, disputed);
      case _ => OtherQueue(b, c);
    } else {
      SameQueue(b, b, Named(c), Brought(c));
    }
  }

  // ------------------------------------------------------------------ runs

  predicate SendsNo(cs: seq<Command>, r: Id) {
    forall i | 0 <= i < |cs| :: r !in Named(cs[i])
  }

  lemma StillUnapplied(b: Book, b2: Book, mine: set<Id>, seen: set<Id>, r: Id)
    requires QueueStep(b, b2, mine, seen) && r !in mine && r !in b.reversals && !WaitsFor(b, r)
    ensures r !in b2.reversals && !WaitsFor(b2, r)
  {
    forall k | 0 <= k < |b2.parked| && b2.parked[k].waiting ensures b2.parked[k].reversal != r {
      if k < |b.parked| {
        assert RowKept(b, b2, k);
      }
    }
  }

  /** A reversal that is not on record and that no row waits for is never applied, whatever happens, until the
      telco sends it itself. */
  lemma {:induction false} OnlyResendApplies(b: Book, cs: seq<Command>, r: Id)
    requires Inv(b) && r !in b.reversals && !WaitsFor(b, r) && SendsNo(cs, r)
    ensures r !in Run(b, cs).reversals && !WaitsFor(Run(b, cs), r) && Inv(Run(b, cs))
  {
    hide Step, WaitsFor, Inv, QueueStep;
    if cs != [] {
      var n := |cs| - 1;
      var y := Run(b, cs[..n]);
      OnlyResendApplies(b, cs[..n], r);
      StepKeepsInv(y, cs[n]);
      StepQueue(y, cs[n]);
      StillUnapplied(y, Step(y, cs[n]), Named(cs[n]), Brought(cs[n]), r);
    }
  }

  /** Sent again while its row is closed, for an allocated event of which enough is still applied: it goes through
      exactly when neither the subscriber's place nor the pool's headroom is in the way. Else it is refused, for
      the closed row keeps it from parking again. */
  lemma ResendAppliesIff(b: Book, r: Id, e: Id, amount: int, feeFirst: bool, k: Id)
    requires Inv(b) && Claimable(b, e, amount, r)
    requires k < |b.parked| && b.parked[k].reversal == r && b.parked[k].original == e && !b.parked[k].waiting
    ensures var a := ReceivableAdvance(b.allocs, e).value;
            AdvanceOk(b, a) &&
            var adv := b.advances[a];
            var q := b.pools[adv.pool.value];
            var res := Reverse(b, r, e, amount, feeFirst);
            if !(adv.state.Closed? && SlotTaken(b, a, adv.subscriber)) && q.reserved + q.utilised + amount <= q.committed
            then res.Ok? && res.value.1.ReverseApplied? && r in res.value.0.reversals
            else res == Err(NotFound)
  {
    hide Base, Core, ApplyReversal, ReversedBook, AdvanceOk, NetApplied, ReceivableAdvance, SlotTaken, FindParked;
    InvAdvance(b, ReceivableAdvance(b.allocs, e).value);
    ReversalOutcome(b, e, amount, r, feeFirst);
    OnlyRowOf(b, k);
    ResendReply(b, r, e, amount, feeFirst, k);
  }

  lemma OnlyRowOf(b: Book, k: Id)
    requires Base(b) && k < |b.parked| && !b.parked[k].waiting
    ensures FindParked(b.parked, b.parked[k].original).None?
    ensures ParkConflict(b.parked, b.parked[k].original, b.parked[k].reversal)
  {
    BaseRows(b);
    hide Base, Core, RowOk;
    FindParkedIs(b.parked, b.parked[k].original);
    hide FindParked;
  }

  lemma ResendReply(b: Book, r: Id, e: Id, amount: int, feeFirst: bool, k: Id)
    requires Base(b) && Claimable(b, e, amount, r)
    requires FindParked(b.parked, e).None? && ParkConflict(b.parked, e, r)
    ensures var res, app := Reverse(b, r, e, amount, feeFirst), ApplyReversal(b, e, amount, r, feeFirst);
            && (app.Ok? ==> res.Ok? && res.value.1.ReverseApplied? && r in res.value.0.reversals)
            && (app == Err(ConcurrentAdvance) || app == Err(PoolOverAllocated) ==> res == Err(NotFound))
  {
    hide Base, ApplyReversal, NetApplied, ReceivableAdvance, FindParked, ParkConflict;
    if ApplyReversal(b, e, amount, r, feeFirst).Ok? {
      AppliedKeepsBase(b, e, amount, r, feeFirst);
    }
  }

  /** `k` waits for an event the book has not seen, to take back more than the command brings. */
  ghost predicate Sinks(b: Book, k: Id, cmd: IngestCmd) {
    && k < |b.parked| && b.parked[k].waiting && b.parked[k].original == cmd.source && cmd.source !in b.ingested
    && b.parked[k].amount > cmd.payload.amount
  }

  /** Each time the event comes in, it is this recovery, and its subscriber has a live advance. */
  ghost predicate ComesAs(b: Book, cs: seq<Command>, cmd: IngestCmd) {
    forall i | 0 <= i < |cs| && cs[i].CmdIngest? && cs[i].ingest.source == cmd.source :: Meets(Run(b, cs[..i]), cs[i].ingest, cmd)
  }

  ghost predicate Meets(b: Book, it: IngestCmd, cmd: IngestCmd) {
    && it.payload == cmd.payload && it.subscriber.Some?
    && FindLive(b.advances, it.subscriber.value).Some?
  }

  lemma SunkOnce(b: Book, k: Id, cmd: IngestCmd, it: IngestCmd)
    requires Inv(b) && Sinks(b, k, cmd) && it.source == cmd.source && Meets(b, it, cmd)
    ensures Ingest(b, it).Err?
  {
    IngestOutcome(b, it);
    FindLiveIs(b.advances, it.subscriber.value);
    hide Inv, Ingest, FindLive;
    assert b.parked[k].waiting;
  }

  lemma SinksOn(b: Book, c: Command, k: Id, cmd: IngestCmd)
    requires Inv(b) && Inv(Step(b, c)) && Sinks(b, k, cmd) && QueueStep(b, Step(b, c), Named(c), Brought(c))
    requires c.CmdIngest? && c.ingest.source == cmd.source ==> Step(b, c) == b
    ensures Sinks(Step(b, c), k, cmd)
  {
    hide Step, WaitsFor, Base;
    assert RowKept(b, Step(b, c), k);
    assert b.ingested.Keys == b.events.Keys && Step(b, c).ingested.Keys == Step(b, c).events.Keys;
  }

  lemma RefusedChangesNothing(b: Book, it: IngestCmd)
    requires Ingest(b, it).Err?
    ensures Step(b, CmdIngest(it)) == b
  {
    hide Ingest;
  }

  /** As long as the subscriber has a live advance whenever the recovery comes in, it is refused every time, over
      any run and however often it is delivered: it is never on the book, and the reversal that waits for it
      never stops waiting. */
  lemma {:induction false} SunkForEver(b: Book, cs: seq<Command>, k: Id, cmd: IngestCmd, again: IngestCmd)
    requires Inv(b) && Sinks(b, k, cmd) && ComesAs(b, cs, cmd)
    ensures Inv(Run(b, cs)) && Sinks(Run(b, cs), k, cmd)
    ensures again.source == cmd.source && Meets(Run(b, cs), again, cmd) ==> Ingest(Run(b, cs), again).Err?
  {
    hide Step, Inv, QueueStep, Sinks, Meets, Ingest;
    if cs != [] {
      var n := |cs| - 1;
      var y := Run(b, cs[..n]);
      PrefixComesAs(b, cs, cmd);
      SunkForEver(b, cs[..n], k, cmd, again);
      StepKeepsInv(y, cs[n]);
      StepQueue(y, cs[n]);
      if cs[n].CmdIngest? && cs[n].ingest.source == cmd.source {
        SunkOnce(y, k, cmd, cs[n].ingest);
        RefusedChangesNothing(y, cs[n].ingest);
      }
      SinksOn(y, cs[n], k, cmd);
    }
    if again.source == cmd.source && Meets(Run(b, cs), again, cmd) {
      SunkOnce(Run(b, cs), k, cmd, again);
    }
  }

  lemma PrefixComesAs(b: Book, cs: seq<Command>, cmd: IngestCmd)
    requires ComesAs(b, cs, cmd) && cs != []
    ensures ComesAs(b, cs[..|cs| - 1], cmd)
  {
    hide Run, Meets;
    var was := cs[..|cs| - 1];
    forall i | 0 <= i < |was| && was[i].CmdIngest? && was[i].ingest.source == cmd.source ensures Meets(Run(b, was[..i]), was[i].ingest, cmd) {
      assert was[..i] == cs[..i] && was[i] == cs[i];
    }
  }
}
