/** The book over whole runs. */
module BookRuns {
  import opened BookInvariant
  import opened BookReferences
  import opened BookReversal
  import opened BookSafety
  import opened BookSteps
  import opened BookTables
  import opened BookWriteOff
  import opened Ledger
  import opened Templates

  lemma FreshHolds(b: Book)
    requires Fresh(b)
    ensures Inv(b)
  {
    forall m: Measure ensures Total(b, m) == 0 {
      assert Column(b, m) == [];
    }
    assert AccountBalance(b.journals, SubscriberReceivable, CURRENCY) == 0;
    assert AccountBalance(b.journals, UnearnedFee, CURRENCY) == 0;
    hide Total, Tally;
  }

  /** Every transaction, committed or rolled back, keeps the invariant. */
  lemma StepKeepsInv(b: Book, c: Command)
    requires Inv(b)
    ensures Inv(Step(b, c))
  {
    hide Inv, Accept, Resolve, Reschedule, Ingest, Reverse, RetryParked, RequestWriteOff, ApproveWriteOff,
      RejectWriteOff;
    if BookSteps.Attempt(b, c).Ok? {
      match c
      case CmdAccept(subscriber, programme, offer, deferred) => AcceptKeepsInv(b, subscriber, programme, offer, deferred);
      case CmdResolve(a, outcome) => ResolveOutcome(b, a, outcome);
      case CmdReschedule(a) => RescheduleKeepsInv(b, a);
      case CmdIngest(cmd) => IngestOutcome(b, cmd);
      case CmdReverse(r, e, amount, feeFirst) => ReverseKeepsInv(b, r, e, amount, feeFirst);
      case CmdRetryParked(k, feeFirst) => RetryKeepsInv(b, k, feeFirst);
      case CmdRequestWriteOff(a, actor, eligible) => RequestOutcome(b, a, actor, eligible);
      case CmdApproveWriteOff(w, actor, disputed) => ApproveOutcome(b, w, actor, disputed);
      case CmdRejectWriteOff(w, actor) => RejectOutcome(b, w, actor);
    }
  }

  /** From funded pools and empty tables, every state any run of transactions reaches satisfies the
      invariant. */
  lemma {:induction false} RunsKeepInv(b: Book, cs: seq<Command>)
    requires Fresh(b)
    ensures Inv(Run(b, cs))
  {
    if cs == [] {
      FreshHolds(b);
    } else {
      RunsKeepInv(b, cs[..|cs| - 1]);
      StepKeepsInv(Run(b, cs[..|cs| - 1]), cs[|cs| - 1]);
    }
  }
}
