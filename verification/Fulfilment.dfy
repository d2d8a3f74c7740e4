/** The fulfilment of one advance as a protocol between the confirm saga, the enquiry worker and a telco that
    dedupes by idempotency key, over a network that loses, delays and repeats messages. */
module Fulfilment {
  import opened Breaker
  import opened Common

  /** What the telco decides when it first executes the instruction. */
  datatype Verdict = Credited | Refused

  datatype Stage = Unsettled | Activated | Abandoned

  datatype Saga = Ready | Waiting | Gone

  /** What settled the advance: a fault before the dial, an answer to the instruction, or to an enquiry. */
  datatype Settler = LocalFault | Answered(answer: Outcome) | Enquired(answer: Outcome)

  datatype System = System(
    stage: Stage,                  // PENDING or UNKNOWN, ACTIVE, FULFILMENT_FAILED
    saga: Saga,
    dialled: bool,                 // the instruction was handed to the network
    rejected: bool,                // the telco's edge refused a copy of it
    record: Option<Verdict>,       // the telco's idempotency record and transaction
    credits: nat,                  // times the subscriber was credited
    heardBySaga: set<Outcome>,     // answers to the instruction the network may deliver
    heardByWorker: set<Outcome>,   // answers to enquiries the network may deliver, any number of times
    confirms: nat, releases: nat,  // reservations turned into utilisation, or given back
    settledBy: Option<Settler>)

  function Start(): System {
    System(Unsettled, Ready, false, false, None, 0, {}, {}, 0, 0, None)
  }

  datatype Event =
    | Dial
    | FailBeforeDial
    | Crash
    | Land(verdict: Verdict)
    | RejectAtEdge
    | SagaHears(answer: Outcome)
    | Enquire
    | WorkerHears(answer: Outcome)

  function AnswerOf(v: Verdict): Outcome {
    match v case Credited => Confirmed case Refused => Failed
  }

  /** The outcome transaction: only an unsettled advance moves, and with it the reservation. */
  function Apply(s: System, o: Outcome, who: Settler): System {
    if s.stage != Unsettled then s
    else match o
      case Confirmed => s.(stage := Activated, confirms := s.confirms + 1, settledBy := Some(who))
      case Unknown => s
      case _ => s.(stage := Abandoned, releases := s.releases + 1, settledBy := Some(who))
  }

  /** The telco executes a copy of the instruction: the first decides, a later copy replays its record. */
  function Execute(s: System, v: Verdict): System {
    match s.record
    case Some(was) => s.(heardBySaga := s.heardBySaga + {AnswerOf(was)})
    case None =>
      s.(record := Some(v), credits := s.credits + (if v == Credited then 1 else 0),
         heardBySaga := s.heardBySaga + {AnswerOf(v)})
  }

  /** An event that is not enabled does nothing. */
  function Step(s: System, e: Event): System {
    match e
    case Dial => if s.saga == Ready then s.(saga := Waiting, dialled := true) else s
    case FailBeforeDial => if s.saga == Ready then Apply(s.(saga := Gone), Failed, LocalFault) else s
    case Crash => s.(saga := Gone)
    case Land(v) => if s.dialled then Execute(s, v) else s
    case RejectAtEdge =>
      if s.dialled then s.(rejected := true, heardBySaga := s.heardBySaga + {Failed}) else s
    case SagaHears(o) =>
      if s.saga == Waiting && (o == Unknown || o in s.heardBySaga) then Apply(s.(saga := Gone), o, Answered(o)) else s
    case Enquire =>
      s.(heardByWorker := s.heardByWorker + {if s.record.Some? then AnswerOf(s.record.value) else NotFound})
    case WorkerHears(o) => if o in s.heardByWorker then Apply(s, o, Enquired(o)) else s
  }

  function Run(s: System, es: seq<Event>): System {
    if es == [] then s else Step(Run(s, es[..|es| - 1]), es[|es| - 1])
  }

  // ------------------------------------------------------------------ what every interleaving keeps

  /** Every answer on its way speaks the truth about the telco at the time it was given. */
  predicate Truthful(s: System) {
    && (s.record == Some(Credited) <==> s.credits == 1) && s.credits <= 1
    && (!s.dialled ==> s.record == None && !s.rejected)
    && (s.saga == Ready ==> !s.dialled) && (s.saga == Waiting ==> s.dialled)
    && (Confirmed in s.heardBySaga || Confirmed in s.heardByWorker ==> s.record == Some(Credited))
    && (Failed in s.heardBySaga ==> s.record == Some(Refused) || s.rejected)
    && (Failed in s.heardByWorker ==> s.record == Some(Refused))
    && NotFound !in s.heardBySaga && Unknown !in s.heardBySaga && Unknown !in s.heardByWorker
  }

  /** The advance and its reservation agree with what settled them. */
  predicate Settled(s: System) {
    match s.stage
    case Unsettled => s.confirms == s.releases == 0 && s.settledBy == None
    case Activated =>
      && s.confirms == 1 && s.releases == 0 && s.record == Some(Credited)
      && (s.settledBy == Some(Answered(Confirmed)) || s.settledBy == Some(Enquired(Confirmed)))
    case Abandoned =>
      && s.confirms == 0 && s.releases == 1
      && (|| (s.settledBy == Some(LocalFault) && s.saga == Gone && !s.dialled)
          || (s.settledBy == Some(Answered(Failed)) && (s.record == Some(Refused) || s.rejected))
          || (s.settledBy == Some(Enquired(Failed)) && s.record == Some(Refused))
          || (s.settledBy == Some(Enquired(NotFound)) && NotFound in s.heardByWorker))
  }

  lemma StepTellsTruth(s: System, e: Event)
    requires Truthful(s)
    ensures Truthful(Step(s, e))
  {
  }

  lemma StepSettles(s: System, e: Event)
    requires Truthful(s) && Settled(s)
    ensures Settled(Step(s, e))
  {
  }

  lemma {:induction false} RunKeeps(es: seq<Event>)
    ensures Truthful(Run(Start(), es)) && Settled(Run(Start(), es))
  {
    if es != [] {
      RunKeeps(es[..|es| - 1]);
      StepTellsTruth(Run(Start(), es[..|es| - 1]), es[|es| - 1]);
      StepSettles(Run(Start(), es[..|es| - 1]), es[|es| - 1]);
    }
  }

  /** Event `k` is the first copy of the instruction to be executed, and the telco credits. */
  predicate CreditLands(es: seq<Event>, k: nat)
    requires k < |es|
  {
    var s := Run(Start(), es[..k]);
    es[k] == Land(Credited) && s.dialled && s.record == None
  }

  /** At event `k` the worker hears NOT_FOUND, an answer some enquiry was given, and gives the advance up. */
  predicate GivesUp(es: seq<Event>, k: nat)
    requires k < |es|
  {
    var s := Run(Start(), es[..k]);
    es[k] == WorkerHears(NotFound) && NotFound in s.heardByWorker && s.stage == Unsettled
  }

  /** At event `k` the saga hears that its instruction failed, and gives the advance up. */
  predicate TakesNo(es: seq<Event>, k: nat)
    requires k < |es|
  {
    var s := Run(Start(), es[..k]);
    es[k] == SagaHears(Failed) && Failed in s.heardBySaga && s.saga == Waiting && s.stage == Unsettled
  }

  lemma StepMarks(s: System, e: Event)
    requires Truthful(s) && Settled(s)
    ensures Step(s, e).record == Some(Credited)
            <==> s.record == Some(Credited) || (e == Land(Credited) && s.dialled && s.record == None)
    ensures Step(s, e).settledBy == Some(Enquired(NotFound))
            <==> s.settledBy == Some(Enquired(NotFound))
                 || (e == WorkerHears(NotFound) && NotFound in s.heardByWorker && s.stage == Unsettled)
    ensures Step(s, e).settledBy == Some(Answered(Failed))
            <==> s.settledBy == Some(Answered(Failed))
                 || (e == SagaHears(Failed) && Failed in s.heardBySaga && s.saga == Waiting && s.stage == Unsettled)
  {
  }

  lemma MarksOfPrefix(es: seq<Event>, n: nat, k: nat)
    requires k < n <= |es|
    ensures CreditLands(es[..n], k) == CreditLands(es, k) && GivesUp(es[..n], k) == GivesUp(es, k)
    ensures TakesNo(es[..n], k) == TakesNo(es, k)
  {
    hide Run;
    assert es[..n][..k] == es[..k];
  }

  ghost predicate SomeCredit(es: seq<Event>) { exists k :: 0 <= k < |es| && CreditLands(es, k) }

  ghost predicate SomeGivesUp(es: seq<Event>) { exists k :: 0 <= k < |es| && GivesUp(es, k) }

  ghost predicate SomeNo(es: seq<Event>) { exists k :: 0 <= k < |es| && TakesNo(es, k) }

  lemma OneMoreEvent(was: seq<Event>, es: seq<Event>)
    requires es != [] && was == es[..|es| - 1]
    ensures SomeCredit(es) <==> SomeCredit(was) || CreditLands(es, |es| - 1)
    ensures SomeGivesUp(es) <==> SomeGivesUp(was) || GivesUp(es, |es| - 1)
    ensures SomeNo(es) <==> SomeNo(was) || TakesNo(es, |es| - 1)
  {
    hide CreditLands, GivesUp, TakesNo;
    forall k | 0 <= k < |was|
      ensures CreditLands(was, k) == CreditLands(es, k) && GivesUp(was, k) == GivesUp(es, k) && TakesNo(was, k) == TakesNo(es, k)
    {
      MarksOfPrefix(es, |was|, k);
    }
    if k :| 0 <= k < |was| && CreditLands(was, k) {
      assert CreditLands(es, k);
    }
    if k :| 0 <= k < |was| && GivesUp(was, k) {
      assert GivesUp(es, k);
    }
    if k :| 0 <= k < |was| && TakesNo(was, k) {
      assert TakesNo(es, k);
    }
  }

  /** What the final state says, on the events: who credited, and who gave up. */
  lemma {:induction false} MarksAreEvents(es: seq<Event>)
    ensures Run(Start(), es).record == Some(Credited) <==> SomeCredit(es)
    ensures Run(Start(), es).settledBy == Some(Enquired(NotFound)) <==> SomeGivesUp(es)
    ensures Run(Start(), es).settledBy == Some(Answered(Failed)) <==> SomeNo(es)
  {
    if es != [] {
      var n := |es| - 1;
      MarksAreEvents(es[..n]);
      RunKeeps(es[..n]);
      StepMarks(Run(Start(), es[..n]), es[n]);
      OneMoreEvent(es[..n], es);
      hide SomeCredit, SomeGivesUp, SomeNo, Step, Truthful, Settled;
    }
  }

  /** Over every interleaving: the telco credits at most once, an ACTIVE advance was credited exactly once,
      the reservation is confirmed or released exactly once when the advance settles, and a failed advance
      was credited exactly when a crediting copy of the instruction landed although the worker gave the advance
      up on a NOT_FOUND, or the saga on the refusal of another copy. */
  lemma AtMostOneCredit(es: seq<Event>)
    ensures var s := Run(Start(), es);
            && s.credits <= 1
            && (s.stage == Activated ==> s.credits == 1 && s.confirms == 1 && s.releases == 0)
            && (s.stage == Abandoned ==> s.confirms == 0 && s.releases == 1)
            && (s.stage == Unsettled ==> s.confirms == s.releases == 0)
            && (s.stage == Abandoned && s.credits == 1 <==> SomeCredit(es) && (SomeGivesUp(es) || SomeNo(es)))
  {
    hide SomeCredit, SomeGivesUp, SomeNo;
    RunKeeps(es);
    MarksAreEvents(es);
  }

  /** No crediting copy lands first once an enquiry has been answered NOT_FOUND, and none lands on either side of
      a refusal at the telco's edge. */
  ghost predicate TelcoDecidesOnce(es: seq<Event>) {
    && (forall k | 0 <= k < |es| && CreditLands(es, k) ::
          NotFound !in Run(Start(), es[..k]).heardByWorker && !Run(Start(), es[..k]).rejected)
    && (forall k | 0 <= k < |es| && es[k].RejectAtEdge? :: Run(Start(), es[..k]).record != Some(Credited))
  }

  /** With that, a failed advance was never credited. */
  lemma FailedWasNeverCredited(es: seq<Event>)
    requires TelcoDecidesOnce(es)
    ensures var s := Run(Start(), es); s.stage == Abandoned ==> s.credits == 0
  {
    NoIsNoCredit(es);
    RunKeeps(es);
  }

  lemma PrefixDecidesOnce(es: seq<Event>)
    requires es != [] && TelcoDecidesOnce(es)
    ensures TelcoDecidesOnce(es[..|es| - 1])
  {
    hide Run, CreditLands;
    var was := es[..|es| - 1];
    forall k | 0 <= k < |was| ensures was[..k] == es[..k] && CreditLands(was, k) == CreditLands(es, k) {
      MarksOfPrefix(es, |was|, k);
    }
  }

  /** Under the same hypothesis whoever was told NOT_FOUND, or refused at the edge, was never credited. */
  lemma {:induction false} NoIsNoCredit(es: seq<Event>)
    requires TelcoDecidesOnce(es)
    ensures var s := Run(Start(), es);
            NotFound in s.heardByWorker || s.rejected ==> s.record != Some(Credited)
  {
    if es != [] {
      var n := |es| - 1;
      hide Step;
      PrefixDecidesOnce(es);
      NoIsNoCredit(es[..n]);
      var s := Run(Start(), es[..n]);
      assert CreditLands(es, n) <==> (es[n] == Land(Credited) && s.dialled && s.record == None);
      CreditStaysAway(s, es[n]);
    }
  }

  lemma CreditStaysAway(s: System, e: Event)
    requires NotFound in s.heardByWorker || s.rejected ==> s.record != Some(Credited)
    requires e == Land(Credited) && s.dialled && s.record == None ==> NotFound !in s.heardByWorker && !s.rejected
    requires e.RejectAtEdge? ==> s.record != Some(Credited)
    ensures NotFound in Step(s, e).heardByWorker || Step(s, e).rejected ==> Step(s, e).record != Some(Credited)
  {
  }

  lemma FourSteps(a: Event, b: Event, c: Event, d: Event)
    ensures Run(Start(), [a, b, c, d]) == Step(Step(Step(Step(Start(), a), b), c), d)
  {
    hide Step;
    assert [a, b, c, d][..3] == [a, b, c] && [a, b, c][..2] == [a, b] && [a, b][..1] == [a] && [a][..0] == [];
    assert Run(Start(), [a]) == Step(Start(), a);
    assert Run(Start(), [a, b]) == Step(Step(Start(), a), b);
  }

  /** Without it, it is false: the saga's dial is slow, the worker asks first and gives up, and the
      instruction lands. The subscriber holds the credit, the reservation is gone. */
  lemma LateLandingLosesMoney()
    ensures var s := Run(Start(), [Dial, Enquire, WorkerHears(NotFound), Land(Credited)]);
            s.stage == Abandoned && s.credits == 1 && s.releases == 1
  {
    FourSteps(Dial, Enquire, WorkerHears(NotFound), Land(Credited));
  }

  /** Or the first copy is executed, its answer is lost, and the transport's second copy is refused at the edge. */
  lemma SecondCopyRefusedLosesMoney()
    ensures var s := Run(Start(), [Dial, Land(Credited), RejectAtEdge, SagaHears(Failed)]);
            s.stage == Abandoned && s.credits == 1 && s.releases == 1
  {
    FourSteps(Dial, Land(Credited), RejectAtEdge, SagaHears(Failed));
  }

  /** Ambiguity always resolves: from any reachable unsettled state in which the telco decided, one enquiry
      whose answer arrives settles the advance as the telco decided, whatever was lost before. */
  lemma OneEnquiryResolves(es: seq<Event>)
    ensures var s := Run(Start(), es);
            s.stage == Unsettled && s.record.Some? ==>
              var t := Step(Step(s, Enquire), WorkerHears(AnswerOf(s.record.value)));
              t.stage == (if s.record.value == Credited then Activated else Abandoned) && t.credits == s.credits
  {
    RunKeeps(es);
  }

  // ------------------------------------------------------------------ the telco's side

  ghost function Count(m: map<nat, nat>, k: nat): nat { if k in m then m[k] else 0 }

  /** The telco's two tables: answers by idempotency key, transactions by platform request. */
  class Telco {
    var byIdemKey: map<nat, Verdict>
    var transactions: map<nat, Verdict>
    /** The request each idempotency key stands for: the platform makes one key per request. */
    ghost const requestOf: map<nat, nat>
    ghost var credits: map<nat, nat>

    ghost predicate Valid()
      reads this
    {
      && (forall k, l | k in requestOf && l in requestOf :: requestOf[k] == requestOf[l] ==> k == l)
      && byIdemKey.Keys <= requestOf.Keys
      && (forall k | k in byIdemKey :: requestOf[k] in transactions && transactions[requestOf[k]] == byIdemKey[k])
      && (forall k | k in requestOf && requestOf[k] in transactions :: k in byIdemKey)
      && transactions.Keys == credits.Keys
      && (forall r | r in transactions :: credits[r] == if transactions[r] == Credited then 1 else 0)
    }

    constructor (ghost requestOf: map<nat, nat>)
      requires forall k, l | k in requestOf && l in requestOf :: requestOf[k] == requestOf[l] ==> k == l
      ensures Valid() && byIdemKey == map[] && transactions == map[] && this.requestOf == requestOf
    {
      byIdemKey, transactions := map[], map[];
      this.requestOf := requestOf;
      credits := map[];
    }

    /** Executes an instruction once per idempotency key; a repeat gets the stored answer and changes nothing,
        so no request is ever credited twice (Valid). */
    method Fulfil(idemKey: nat, request: nat, verdict: Verdict) returns (answer: Verdict)
      requires Valid() && idemKey in requestOf && requestOf[idemKey] == request
      modifies this
      ensures Valid()
      ensures answer == if idemKey in old(byIdemKey) then old(byIdemKey)[idemKey] else verdict
      ensures idemKey in old(byIdemKey) ==>
                byIdemKey == old(byIdemKey) && transactions == old(transactions) && credits == old(credits)
      ensures idemKey !in old(byIdemKey) ==>
                byIdemKey == old(byIdemKey)[idemKey := verdict] && transactions == old(transactions)[request := verdict]
    {
      if idemKey in byIdemKey {
        return byIdemKey[idemKey];
      }
      credits := credits[request := Count(credits, request) + if verdict == Credited then 1 else 0];
      byIdemKey := byIdemKey[idemKey := verdict];
      transactions := transactions[request := verdict];
      return verdict;
    }

    method Status(request: nat) returns (answer: Outcome)
      ensures answer == if request in transactions then AnswerOf(transactions[request]) else NotFound
    {
      if request !in transactions {
        return NotFound;
      }
      return AnswerOf(transactions[request]);
    }
  }
}
