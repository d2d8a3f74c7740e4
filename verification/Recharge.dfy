/** The recharge webhook: per-event claims under a daily ceiling, the four-eyes hold queue, and overlapping
    deliveries of one event. Each transaction is one step. */
module Recharge {
  import opened Common
  import Maps

  type Event = nat
  type Day = nat
  type Actor = nat

  datatype Claim = Claim(day: Day, amount: nat)

  datatype Status = Held | ReleaseInProgress | Released | Rejected

  datatype Hold = Hold(status: Status, requestedBy: Option<Actor>, approvedBy: Option<Actor>)

  datatype Via = ByWebhook | ByRelease

  /** The tables of one telco. */
  datatype Desk = Desk(claims: map<Event, Claim>, counters: map<Day, int>, holds: map<Event, Hold>, booked: map<Event, Via>)

  /** The governed limits and what each event id carries: a resend has the same payload. */
  datatype Feed = Feed(perEventMax: nat, ceiling: nat, amountOf: map<Event, nat>) {
    predicate Valid() { perEventMax <= ceiling }

    function Amount(e: Event): nat { if e in amountOf then amountOf[e] else 0 }
  }

  // ------------------------------------------------------------------ statements

  datatype Reserved = Reserved(desk: Desk, reserved: bool, isNew: bool, day: Day)

  /** ReserveDaily: an event already claimed keeps its claim; else the day's counter takes the amount if it
      stays within the ceiling (a first row of the day is inserted as it is). */
  function ReserveDaily(d: Desk, e: Event, amount: nat, ceiling: nat, today: Day): Reserved {
    if e in d.claims then Reserved(d, true, false, d.claims[e].day)
    else if today in d.counters && d.counters[today] + amount > ceiling then Reserved(d, false, false, today)
    else
      var was := if today in d.counters then d.counters[today] else 0;
      Reserved(d.(claims := d.claims[e := Claim(today, amount)], counters := d.counters[today := was + amount]), true, true, today)
  }

  /** ReleaseDaily: gives the amount back to the day's counter, which must not go negative, and drops the
      event's claim, whoever holds it. */
  function ReleaseDaily(d: Desk, day: Day, amount: nat, e: Event): Result<Desk, ()> {
    if day in d.counters && d.counters[day] < amount then Err(())
    else
      var counters := if day in d.counters then d.counters[day := d.counters[day] - amount] else d.counters;
      Ok(d.(counters := counters, claims := d.claims - {e}))
  }

  function HoldEvent(d: Desk, e: Event): Desk {
    if e in d.holds then d else d.(holds := d.holds[e := Hold(Held, None, None)])
  }

  function RequestRelease(d: Desk, e: Event, maker: Actor): Desk {
    if e in d.holds && d.holds[e].status == Held && d.holds[e].requestedBy == None
    then d.(holds := d.holds[e := d.holds[e].(requestedBy := Some(maker))]) else d
  }

  function ClaimForRelease(d: Desk, e: Event, approver: Actor): Desk {
    if e in d.holds && d.holds[e].status == Held && d.holds[e].requestedBy.Some? && d.holds[e].requestedBy != Some(approver)
    then d.(holds := d.holds[e := d.holds[e].(approvedBy := Some(approver), status := ReleaseInProgress)]) else d
  }

  function FinaliseReleased(d: Desk, e: Event, approver: Actor): Desk {
    if e in d.holds && d.holds[e].status == ReleaseInProgress && d.holds[e].approvedBy == Some(approver)
    then d.(holds := d.holds[e := d.holds[e].(status := Released)]) else d
  }

  function MarkRejected(d: Desk, e: Event): Desk {
    if e in d.holds && d.holds[e].status == Held
    then d.(holds := d.holds[e := d.holds[e].(status := Rejected)]) else d
  }

  /** The money core books an event once; a repeat replays. */
  function Book(d: Desk, e: Event, via: Via): Desk {
    if e in d.booked then d else d.(booked := d.booked[e := via])
  }

  // ------------------------------------------------------------------ the first transaction of a delivery

  datatype Admission = Replay(status: Status) | Parked | Admitted(isNew: bool, day: Day)

  /** A held event only replays its disposition; an over-limit one is parked; any other reserves capacity, or
      is parked when the day is full. */
  function Admit(d: Desk, f: Feed, e: Event, today: Day): (Desk, Admission) {
    if e in d.holds then (d, Replay(d.holds[e].status))
    else if f.Amount(e) > f.perEventMax then (HoldEvent(d, e), Parked)
    else
      var r := ReserveDaily(d, e, f.Amount(e), f.ceiling, today);
      if r.reserved then (r.desk, Admitted(r.isNew, r.day)) else (HoldEvent(r.desk, e), Parked)
  }

  /** One telco's rows, changed by the same transactions in place. */
  class Tables {
    var claims: map<Event, Claim>
    var counters: map<Day, int>
    var holds: map<Event, Hold>
    var booked: map<Event, Via>

    ghost function Contents(): Desk
      reads this
    {
      Desk(claims, counters, holds, booked)
    }

    constructor ()
      ensures Contents() == Desk(map[], map[], map[], map[])
    {
      claims, counters, holds, booked := map[], map[], map[], map[];
    }

    /** The claim is inserted first and taken out again when the counter has no room. */
    method Reserve(e: Event, amount: nat, ceiling: nat, today: Day) returns (day: Day, reserved: bool, isNew: bool)
      modifies this`claims, this`counters
      ensures Reserved(Contents(), reserved, isNew, day) == ReserveDaily(old(Contents()), e, amount, ceiling, today)
    {
      if e in claims {
        return claims[e].day, true, false;
      }
      claims := claims[e := Claim(today, amount)];
      if today in counters {
        if counters[today] + amount > ceiling {
          claims := claims - {e};
          assert claims == old(claims);
          return today, false, false;
        }
        counters := counters[today := counters[today] + amount];
      } else {
        counters := counters[today := amount];
      }
      return today, true, true;
    }

    method FirstTransaction(f: Feed, e: Event, today: Day) returns (a: Admission)
      modifies this`claims, this`counters, this`holds
      ensures (Contents(), a) == Admit(old(Contents()), f, e, today)
    {
      if e in holds {
        return Replay(holds[e].status);
      }
      var held := f.Amount(e) > f.perEventMax;
      var day: Day, reserved, isNew := today, false, false;
      if !held {
        day, reserved, isNew := Reserve(e, f.Amount(e), f.ceiling, today);
        held := !reserved;
      }
      if held {
        holds := holds[e := Hold(Held, None, None)];
        return Parked;
      }
      return Admitted(isNew, day);
    }

    method Release(day: Day, amount: nat, e: Event) returns (ok: bool)
      modifies this`claims, this`counters
      ensures ReleaseDaily(old(Contents()), day, amount, e) == if ok then Ok(Contents()) else Err(())
      ensures !ok ==> Contents() == old(Contents())
    {
      if day in counters {
        if counters[day] < amount {
          return false;
        }
        counters := counters[day := counters[day] - amount];
      }
      claims := claims - {e};
      return true;
    }

    method ClaimHold(e: Event, approver: Actor) returns (ok: bool)
      modifies this`holds
      ensures Contents() == ClaimForRelease(old(Contents()), e, approver)
      ensures ok <==> Contents() != old(Contents())
    {
      if e in holds && holds[e].status == Held && holds[e].requestedBy.Some? && holds[e].requestedBy != Some(approver) {
        holds := holds[e := holds[e].(approvedBy := Some(approver), status := ReleaseInProgress)];
        assert holds[e] != old(holds[e]);
        return true;
      }
      return false;
    }

    method Ask(e: Event, maker: Actor) returns (ok: bool)
      modifies this`holds
      ensures Contents() == RequestRelease(old(Contents()), e, maker)
      ensures ok <==> Contents() != old(Contents())
    {
      if e in holds && holds[e].status == Held && holds[e].requestedBy == None {
        holds := holds[e := holds[e].(requestedBy := Some(maker))];
        assert holds[e] != old(holds[e]);
        return true;
      }
      return false;
    }

    method Finalise(e: Event, approver: Actor) returns (ok: bool)
      modifies this`holds
      ensures Contents() == FinaliseReleased(old(Contents()), e, approver)
      ensures ok <==> Contents() != old(Contents())
    {
      if e in holds && holds[e].status == ReleaseInProgress && holds[e].approvedBy == Some(approver) {
        holds := holds[e := holds[e].(status := Released)];
        assert holds[e] != old(holds[e]);
        return true;
      }
      return false;
    }

    method Reject(e: Event) returns (ok: bool)
      modifies this`holds
      ensures Contents() == MarkRejected(old(Contents()), e)
      ensures ok <==> Contents() != old(Contents())
    {
      if e in holds && holds[e].status == Held {
        holds := holds[e := holds[e].(status := Rejected)];
        assert holds[e] != old(holds[e]);
        return true;
      }
      return false;
    }
  }

  // ------------------------------------------------------------------ overlapping deliveries

  /** A delivery past its first transaction: about to book, or about to give its reservation back. */
  datatype Phase = Booking | Releasing

  datatype Delivery = Delivery(event: Event, day: Day, isNew: bool, phase: Phase)

  datatype System = System(desk: Desk, inFlight: seq<Delivery>)

  datatype Move =
    | Arrive(event: Event, today: Day)
    | BookDelivery(i: nat)
    | FailDelivery(i: nat)
    | ReleaseDelivery(i: nat)
    | CrashDelivery(i: nat)
    | AskRelease(event: Event, maker: Actor)
    | Approve(event: Event, approver: Actor)
    | BookReleased(event: Event)
    | Finalise(event: Event, approver: Actor)
    | Reject(event: Event)

  function Without(ds: seq<Delivery>, i: nat): seq<Delivery>
    requires i < |ds|
  {
    ds[..i] + ds[i + 1..]
  }

  /** One transaction; a move that is not enabled does nothing. */
  function Step(s: System, f: Feed, m: Move): System {
    match m
    case Arrive(e, today) =>
      var (d, a) := Admit(s.desk, f, e, today);
      if a.Admitted? then System(d, s.inFlight + [Delivery(e, a.day, a.isNew, Booking)]) else s.(desk := d)
    case BookDelivery(i) =>
      if i < |s.inFlight| && s.inFlight[i].phase == Booking
      then System(Book(s.desk, s.inFlight[i].event, ByWebhook), Without(s.inFlight, i)) else s
    case FailDelivery(i) =>
      if i < |s.inFlight| && s.inFlight[i].phase == Booking
      then s.(inFlight := if s.inFlight[i].isNew then s.inFlight[i := s.inFlight[i].(phase := Releasing)] else Without(s.inFlight, i))
      else s
    case ReleaseDelivery(i) =>
      if i < |s.inFlight| && s.inFlight[i].phase == Releasing then
        var x := s.inFlight[i];
        match ReleaseDaily(s.desk, x.day, f.Amount(x.event), x.event)
        case Ok(d) => System(d, Without(s.inFlight, i))
        case Err(_) => s.(inFlight := Without(s.inFlight, i))
      else s
    case CrashDelivery(i) => if i < |s.inFlight| then s.(inFlight := Without(s.inFlight, i)) else s
    case AskRelease(e, maker) => s.(desk := RequestRelease(s.desk, e, maker))
    case Approve(e, approver) => s.(desk := ClaimForRelease(s.desk, e, approver))
    case BookReleased(e) =>
      if e in s.desk.holds && (s.desk.holds[e].status == ReleaseInProgress || s.desk.holds[e].status == Released)
      then s.(desk := Book(s.desk, e, ByRelease)) else s
    case Finalise(e, approver) => s.(desk := FinaliseReleased(s.desk, e, approver))
    case Reject(e) => s.(desk := MarkRejected(s.desk, e))
  }

  function Run(s: System, f: Feed, ms: seq<Move>): System {
    if ms == [] then s else Step(Run(s, f, ms[..|ms| - 1]), f, ms[|ms| - 1])
  }

  const START := System(Desk(map[], map[], map[], map[]), [])

  // ------------------------------------------------------------------ the counter, always

  function OnDay(claims: map<Event, Claim>, day: Day): map<nat, int> {
    map e | e in claims && claims[e].day == day :: claims[e].amount as int
  }

  /** The counter is exactly the day's live claims, within the ceiling. */
  ghost predicate CountersOk(d: Desk, f: Feed) {
    && (forall day: Day :: (if day in d.counters then d.counters[day] else 0) == Maps.Sum(OnDay(d.claims, day)))
    && (forall day | day in d.counters :: 0 <= d.counters[day] <= f.ceiling)
    && (forall e | e in d.claims :: d.claims[e].amount == f.Amount(e) <= f.perEventMax && d.claims[e].day in d.counters)
  }

  /** A fresh delivery's claim is its own. */
  predicate FlightsOk(s: System) {
    && (forall i | 0 <= i < |s.inFlight| && s.inFlight[i].isNew ::
          s.inFlight[i].event in s.desk.claims && s.desk.claims[s.inFlight[i].event].day == s.inFlight[i].day)
    && (forall i, j | 0 <= i < j < |s.inFlight| && s.inFlight[i].isNew && s.inFlight[j].isNew ::
          s.inFlight[i].event != s.inFlight[j].event)
    && (forall i | 0 <= i < |s.inFlight| :: s.inFlight[i].phase == Releasing ==> s.inFlight[i].isNew)
  }

  ghost predicate Counted(s: System, f: Feed) {
    CountersOk(s.desk, f) && FlightsOk(s)
  }

  lemma ClaimAdded(claims: map<Event, Claim>, e: Event, c: Claim, d: Day)
    requires e !in claims
    ensures Maps.Sum(OnDay(claims[e := c], d)) == Maps.Sum(OnDay(claims, d)) + if c.day == d then c.amount else 0
  {
    if c.day == d {
      assert OnDay(claims[e := c], d) == OnDay(claims, d)[e := c.amount as int];
      Maps.SumInsert(OnDay(claims, d), e, c.amount as int);
    } else {
      assert OnDay(claims[e := c], d) == OnDay(claims, d);
    }
  }

  lemma ClaimDropped(claims: map<Event, Claim>, e: Event, d: Day)
    requires e in claims
    ensures Maps.Sum(OnDay(claims - {e}, d)) == Maps.Sum(OnDay(claims, d)) - if claims[e].day == d then claims[e].amount else 0
  {
    assert (claims - {e})[e := claims[e]] == claims;
    ClaimAdded(claims - {e}, e, claims[e], d);
  }

  lemma DropKeepsCounted(s: System, f: Feed, i: nat)
    requires Counted(s, f) && i < |s.inFlight|
    ensures Counted(s.(inFlight := Without(s.inFlight, i)), f)
  {
    hide CountersOk;
    var ds := Without(s.inFlight, i);
    assert forall j | 0 <= j < |ds| :: ds[j] == s.inFlight[if j < i then j else j + 1];
  }

  lemma ReserveKeepsCounters(d: Desk, f: Feed, e: Event, today: Day)
    requires f.Valid() && CountersOk(d, f) && f.Amount(e) <= f.perEventMax
    ensures CountersOk(ReserveDaily(d, e, f.Amount(e), f.ceiling, today).desk, f)
  {
    hide Maps.Sum, OnDay;
    if e !in d.claims {
      forall x: Day
        ensures Maps.Sum(OnDay(d.claims[e := Claim(today, f.Amount(e))], x))
                == Maps.Sum(OnDay(d.claims, x)) + if x == today then f.Amount(e) else 0
      {
        ClaimAdded(d.claims, e, Claim(today, f.Amount(e)), x);
      }
    }
  }

  lemma ArriveKeepsCounted(s: System, f: Feed, e: Event, today: Day)
    requires f.Valid() && Counted(s, f)
    ensures Counted(Step(s, f, Arrive(e, today)), f)
  {
    hide CountersOk;
    if f.Amount(e) <= f.perEventMax {
      ReserveKeepsCounters(s.desk, f, e, today);
    }
    HoldKeepsCounters(s.desk, f, e);
    ArriveFlights(s, f, e, today);
    hide FlightsOk;
  }

  lemma HoldKeepsCounters(d: Desk, f: Feed, e: Event)
    requires CountersOk(d, f)
    ensures CountersOk(HoldEvent(d, e), f)
  {
  }

  lemma ArriveFlights(s: System, f: Feed, e: Event, today: Day)
    requires FlightsOk(s)
    ensures FlightsOk(Step(s, f, Arrive(e, today)))
  {
    var t := Step(s, f, Arrive(e, today));
    assert forall i | 0 <= i < |s.inFlight| :: t.inFlight[i] == s.inFlight[i];
    assert forall x | x in s.desk.claims :: x in t.desk.claims && t.desk.claims[x] == s.desk.claims[x];
    assert e !in s.desk.claims ==> forall i | 0 <= i < |s.inFlight| && s.inFlight[i].isNew :: s.inFlight[i].event != e;
  }

  lemma ReleaseKeepsCounters(d: Desk, f: Feed, e: Event)
    requires CountersOk(d, f) && e in d.claims
    ensures var r := ReleaseDaily(d, d.claims[e].day, f.Amount(e), e);
            r.Ok? && CountersOk(r.value, f) && r.value.claims == d.claims - {e}
  {
    hide Maps.Sum, OnDay;
    DayHoldsClaim(d.claims, e);
    forall x: Day
      ensures Maps.Sum(OnDay(d.claims - {e}, x)) == Maps.Sum(OnDay(d.claims, x)) - if x == d.claims[e].day then f.Amount(e) else 0
    {
      ClaimDropped(d.claims, e, x);
    }
  }

  lemma ReleaseKeepsCounted(s: System, f: Feed, i: nat)
    requires Counted(s, f) && i < |s.inFlight| && s.inFlight[i].phase == Releasing
    ensures var x := s.inFlight[i];
            var t := Step(s, f, ReleaseDelivery(i));
            && Counted(t, f)
            && x.event in s.desk.claims
            && ReleaseDaily(s.desk, x.day, f.Amount(x.event), x.event).Ok?
            && t.desk == s.desk.(counters := t.desk.counters, claims := s.desk.claims - {x.event})
            && t.inFlight == Without(s.inFlight, i)
  {
    hide CountersOk;
    var x := s.inFlight[i];
    assert x.isNew;
    ReleaseKeepsCounters(s.desk, f, x.event);
    var ds := Without(s.inFlight, i);
    assert forall j | 0 <= j < |ds| :: ds[j] == s.inFlight[if j < i then j else j + 1];
    assert forall j | 0 <= j < |ds| && ds[j].isNew :: ds[j].event != x.event;
  }

  lemma DayHoldsClaim(claims: map<Event, Claim>, e: Event)
    requires e in claims
    ensures claims[e].amount <= Maps.Sum(OnDay(claims, claims[e].day))
  {
    var m := OnDay(claims, claims[e].day);
    Maps.SumExtract(m, e);
    Maps.SumOfPart(map[], m - {e});
  }

  /** The holds and the booked money do not enter into it. */
  lemma CountedFrame(s: System, t: System, f: Feed)
    requires Counted(s, f)
    requires t.desk.claims == s.desk.claims && t.desk.counters == s.desk.counters && t.inFlight == s.inFlight
    ensures Counted(t, f)
  {
  }

  lemma FailKeepsCounted(s: System, f: Feed, i: nat)
    requires Counted(s, f) && i < |s.inFlight|
    ensures Counted(Step(s, f, FailDelivery(i)), f)
  {
    hide CountersOk;
    DropKeepsCounted(s, f, i);
    var ds := Step(s, f, FailDelivery(i)).inFlight;
    if s.inFlight[i].isNew {
      assert forall j | 0 <= j < |ds| :: ds[j].event == s.inFlight[j].event && ds[j].isNew == s.inFlight[j].isNew
                                      && ds[j].day == s.inFlight[j].day;
    }
  }

  lemma StepKeepsCounted(s: System, f: Feed, m: Move)
    requires f.Valid() && Counted(s, f)
    ensures Counted(Step(s, f, m), f)
  {
    hide Counted;
    var t := Step(s, f, m);
    match m
    case Arrive(e, today) => ArriveKeepsCounted(s, f, e, today);
    case BookDelivery(i) =>
      if i < |s.inFlight| && s.inFlight[i].phase == Booking {
        DropKeepsCounted(s, f, i);
        CountedFrame(s.(inFlight := Without(s.inFlight, i)), t, f);
      }
    case FailDelivery(i) => if i < |s.inFlight| { FailKeepsCounted(s, f, i); }
    case ReleaseDelivery(i) => if i < |s.inFlight| && s.inFlight[i].phase == Releasing { ReleaseKeepsCounted(s, f, i); }
    case CrashDelivery(i) => if i < |s.inFlight| { DropKeepsCounted(s, f, i); }
    case _ => CountedFrame(s, t, f);
  }

  /** Under any interleaving of deliveries, crashes, releases and the hold workflow: every day's counter is
      the sum of its live claims and at most the ceiling, and an event is counted once. */
  lemma {:induction false} CounterIsClaims(f: Feed, ms: seq<Move>)
    requires f.Valid()
    ensures Counted(Run(START, f, ms), f)
  {
    if ms == [] {
      assert forall d: Day :: OnDay(map[], d) == map[];
    } else {
      CounterIsClaims(f, ms[..|ms| - 1]);
      StepKeepsCounted(Run(START, f, ms[..|ms| - 1]), f, ms[|ms| - 1]);
    }
  }

  // ------------------------------------------------------------------ booked money

  /** Every event booked by the webhook, or about to be, still holds its claim. */
  predicate Covered(s: System) {
    && (forall e | e in s.desk.booked && s.desk.booked[e] == ByWebhook :: e in s.desk.claims)
    && (forall i | 0 <= i < |s.inFlight| && s.inFlight[i].phase == Booking :: s.inFlight[i].event in s.desk.claims)
  }

  /** No other delivery is booking the event, and none has. */
  predicate SafeToRelease(s: System, i: nat)
    requires i < |s.inFlight|
  {
    var e := s.inFlight[i].event;
    && !(e in s.desk.booked && s.desk.booked[e] == ByWebhook)
    && forall j | 0 <= j < |s.inFlight| && j != i :: !(s.inFlight[j].event == e && s.inFlight[j].phase == Booking)
  }

  /** Giving a reservation back keeps booked money covered exactly when no overlapping delivery of the same
      event booked it or is booking it. */
  lemma ReleaseCoversIff(s: System, f: Feed, i: nat)
    requires Counted(s, f) && Covered(s) && i < |s.inFlight| && s.inFlight[i].phase == Releasing
    ensures Covered(Step(s, f, ReleaseDelivery(i))) <==> SafeToRelease(s, i)
  {
    hide CountersOk, FlightsOk, Step, Counted;
    ReleaseKeepsCounted(s, f, i);
    var x := s.inFlight[i];
    var ds := Without(s.inFlight, i);
    assert forall j | 0 <= j < |ds| :: ds[j] == s.inFlight[if j < i then j else j + 1];
    if !SafeToRelease(s, i) && !(x.event in s.desk.booked && s.desk.booked[x.event] == ByWebhook) {
      var j :| 0 <= j < |s.inFlight| && j != i && s.inFlight[j].event == x.event && s.inFlight[j].phase == Booking;
      assert ds[if j < i then j else j - 1] == s.inFlight[j];
    }
  }

  /** A held event has no claim and was never booked by the webhook; it is booked by a release only, and
      then someone other than the maker has claimed that release. */
  predicate CleanAt(d: Desk, e: Event)
    requires e in d.holds
  {
    && e !in d.claims
    && (e in d.booked ==> d.booked[e] == ByRelease)
    && var h := d.holds[e];
       && (h.status == ReleaseInProgress || h.status == Released <==> h.approvedBy.Some?)
       && (h.approvedBy.Some? ==> h.requestedBy.Some? && h.requestedBy != h.approvedBy)
       && (e in d.booked ==> h.approvedBy.Some?)
  }

  predicate HoldsClean(s: System) {
    && (forall e | e in s.desk.holds :: CleanAt(s.desk, e))
    && (forall e | e in s.desk.booked && s.desk.booked[e] == ByRelease :: e in s.desk.holds)
  }

  /** A run in which every reservation given back was safe to give back. */
  ghost predicate SafeReleases(f: Feed, ms: seq<Move>) {
    forall k | 0 <= k < |ms| && ms[k].ReleaseDelivery? ::
      var s := Run(START, f, ms[..k]);
      ms[k].i < |s.inFlight| && s.inFlight[ms[k].i].phase == Releasing ==> SafeToRelease(s, ms[k].i)
  }

  lemma DropKeepsClean(s: System, i: nat)
    requires Covered(s) && i < |s.inFlight|
    ensures Covered(s.(inFlight := Without(s.inFlight, i)))
  {
    var ds := Without(s.inFlight, i);
    assert forall j | 0 <= j < |ds| :: ds[j] == s.inFlight[if j < i then j else j + 1];
  }

  lemma CoveredFrame(s: System, t: System)
    requires Covered(s) && t.inFlight == s.inFlight && t.desk.claims == s.desk.claims
    requires forall e | e in t.desk.booked && t.desk.booked[e] == ByWebhook :: e in s.desk.booked && s.desk.booked[e] == ByWebhook
    ensures Covered(t)
  {
  }

  predicate IsHoldMove(m: Move) { m.AskRelease? || m.Approve? || m.BookReleased? || m.Finalise? || m.Reject? }

  lemma HoldMovesKeepCovered(s: System, f: Feed, m: Move)
    requires Covered(s) && IsHoldMove(m)
    ensures Covered(Step(s, f, m))
  {
    hide Covered;
    CoveredFrame(s, Step(s, f, m));
  }

  /** Only the one event's row and booking change. */
  lemma HoldMoveTouches(s: System, f: Feed, m: Move)
    requires IsHoldMove(m)
    ensures var (d, t) := (s.desk, Step(s, f, m).desk);
            && t.claims == d.claims && t.holds.Keys == d.holds.Keys
            && (m.BookReleased? || t.booked == d.booked)
            && (forall x | x in d.holds && x != m.event :: t.holds[x] == d.holds[x])
            && (forall x | x != m.event :: x in t.booked <==> x in d.booked)
            && (forall x | x in d.booked :: x in t.booked && t.booked[x] == d.booked[x])
  {
  }

  lemma HoldMoveAt(s: System, f: Feed, m: Move)
    requires IsHoldMove(m) && m.event in s.desk.holds && CleanAt(s.desk, m.event)
    ensures var t := Step(s, f, m).desk; m.event in t.holds && CleanAt(t, m.event)
  {
  }

  lemma HoldMovesKeepClean(s: System, f: Feed, m: Move)
    requires Covered(s) && HoldsClean(s) && IsHoldMove(m)
    ensures Covered(Step(s, f, m)) && HoldsClean(Step(s, f, m))
  {
    hide Covered, Step, CleanAt;
    HoldMovesKeepCovered(s, f, m);
    HoldMoveTouches(s, f, m);
    var d, t := s.desk, Step(s, f, m).desk;
    if m.event in d.holds {
      HoldMoveAt(s, f, m);
    } else {
      NotHeld(s, f, m);
    }
    forall e | e in t.holds ensures CleanAt(t, e) {
      if e != m.event {
        CleanElsewhere(d, t, e);
      }
    }
  }

  lemma NotHeld(s: System, f: Feed, m: Move)
    requires IsHoldMove(m) && m.event !in s.desk.holds
    ensures Step(s, f, m).desk == s.desk
  {
  }

  lemma CleanElsewhere(d: Desk, t: Desk, e: Event)
    requires e in d.holds && e in t.holds && CleanAt(d, e)
    requires t.holds[e] == d.holds[e] && (e in t.claims <==> e in d.claims)
    requires (e in t.booked <==> e in d.booked) && (e in d.booked ==> t.booked[e] == d.booked[e])
    ensures CleanAt(t, e)
  {
  }

  lemma BookKeepsClean(s: System, f: Feed, i: nat)
    requires Covered(s) && HoldsClean(s) && i < |s.inFlight| && s.inFlight[i].phase == Booking
    ensures Covered(Step(s, f, BookDelivery(i))) && HoldsClean(Step(s, f, BookDelivery(i)))
  {
    DropKeepsClean(s, i);
  }

  lemma FailKeepsClean(s: System, f: Feed, i: nat)
    requires Covered(s) && i < |s.inFlight|
    ensures Covered(Step(s, f, FailDelivery(i)))
  {
    DropKeepsClean(s, i);
    var ds := Step(s, f, FailDelivery(i)).inFlight;
    assert s.inFlight[i].isNew ==> forall j | 0 <= j < |ds| && ds[j].phase == Booking ::
        s.inFlight[j].phase == Booking && ds[j].event == s.inFlight[j].event;
  }

  lemma ReleaseKeepsClean(s: System, f: Feed, i: nat)
    requires Counted(s, f) && Covered(s) && HoldsClean(s)
    requires i < |s.inFlight| && s.inFlight[i].phase == Releasing && SafeToRelease(s, i)
    ensures Covered(Step(s, f, ReleaseDelivery(i))) && HoldsClean(Step(s, f, ReleaseDelivery(i)))
  {
    hide Counted, Covered, SafeToRelease, Step;
    ReleaseCoversIff(s, f, i);
    ReleaseKeepsCounted(s, f, i);
  }

  lemma StepKeepsClean(s: System, f: Feed, m: Move)
    requires f.Valid() && Counted(s, f) && Covered(s) && HoldsClean(s)
    requires m.ReleaseDelivery? && m.i < |s.inFlight| && s.inFlight[m.i].phase == Releasing ==> SafeToRelease(s, m.i)
    ensures Covered(Step(s, f, m)) && HoldsClean(Step(s, f, m))
  {
    hide Counted, Covered, HoldsClean, SafeToRelease;
    match m
    case Arrive(e, today) => ArriveKeepsClean(s, f, e, today);
    case BookDelivery(i) => if i < |s.inFlight| && s.inFlight[i].phase == Booking { BookKeepsClean(s, f, i); }
    case FailDelivery(i) =>
      if i < |s.inFlight| {
        FailKeepsClean(s, f, i);
        CleanFrame(s, Step(s, f, m));
      }
    case ReleaseDelivery(i) => if i < |s.inFlight| && s.inFlight[i].phase == Releasing { ReleaseKeepsClean(s, f, i); }
    case CrashDelivery(i) =>
      if i < |s.inFlight| {
        DropKeepsClean(s, i);
        CleanFrame(s, Step(s, f, m));
      }
    case _ => HoldMovesKeepClean(s, f, m);
  }

  lemma CleanFrame(s: System, t: System)
    requires HoldsClean(s) && t.desk == s.desk
    ensures HoldsClean(t)
  {
  }

  lemma ArriveKeepsClean(s: System, f: Feed, e: Event, today: Day)
    requires f.Valid() && Counted(s, f) && Covered(s) && HoldsClean(s)
    ensures Covered(Step(s, f, Arrive(e, today))) && HoldsClean(Step(s, f, Arrive(e, today)))
  {
    hide Counted, Step;
    ClaimsFit(s, f, e);
    ArriveTables(s, f, e, today);
  }

  lemma ClaimsFit(s: System, f: Feed, e: Event)
    requires Counted(s, f)
    ensures e in s.desk.claims ==> f.Amount(e) <= f.perEventMax
  {
  }

  /** An arrival claims, parks or replays: it adds a claim or a hold, never to an event that has the other. */
  lemma ArriveTables(s: System, f: Feed, e: Event, today: Day)
    ensures var t := Step(s, f, Arrive(e, today));
            && t.desk.booked == s.desk.booked
            && (t.desk.claims == s.desk.claims || (e !in s.desk.holds && t.desk.claims == s.desk.claims[e := Claim(today, f.Amount(e))]))
            && (t.desk.holds == s.desk.holds
                || (e !in s.desk.holds && t.desk.claims == s.desk.claims && t.desk.holds == s.desk.holds[e := Hold(Held, None, None)]
                    && (e !in s.desk.claims || f.Amount(e) > f.perEventMax)))
            && (t.inFlight == s.inFlight
                || exists day: Day, isNew: bool :: e in t.desk.claims && t.inFlight == s.inFlight + [Delivery(e, day, isNew, Booking)])
  {
    var (d, a) := Admit(s.desk, f, e, today);
    if a.Admitted? {
      assert Step(s, f, Arrive(e, today)).inFlight == s.inFlight + [Delivery(e, a.day, a.isNew, Booking)];
    }
  }

  lemma {:induction false} SafeRunsAreClean(f: Feed, ms: seq<Move>)
    requires f.Valid() && SafeReleases(f, ms)
    ensures Covered(Run(START, f, ms)) && HoldsClean(Run(START, f, ms))
  {
    if ms != [] {
      var n := |ms| - 1;
      assert forall k | 0 <= k < n :: ms[..n][..k] == ms[..k];
      SafeRunsAreClean(f, ms[..n]);
      CounterIsClaims(f, ms[..n]);
      StepKeepsClean(Run(START, f, ms[..n]), f, ms[n]);
    }
  }

  function BookedOn(d: Desk, day: Day): map<nat, int> {
    map e | e in d.claims && d.claims[e].day == day && e in d.booked && d.booked[e] == ByWebhook :: d.claims[e].amount as int
  }

  /** The main result: while no reservation is given back under an overlapping booking, the webhook's booked
      money of a day never passes the ceiling, every booked event is claimed, a held event is booked only
      after someone other than the maker claimed its release, and a rejected one never is. */
  lemma SafeRunsStayUnderCeiling(f: Feed, ms: seq<Move>, day: Day)
    requires f.Valid() && SafeReleases(f, ms)
    ensures var d := Run(START, f, ms).desk;
            && Maps.Sum(BookedOn(d, day)) <= f.ceiling
            && (forall e | e in d.booked && d.booked[e] == ByWebhook :: e in d.claims)
            && (forall e | e in d.holds && e in d.booked ::
                  d.booked[e] == ByRelease && d.holds[e].approvedBy.Some? && d.holds[e].requestedBy.Some?
                  && d.holds[e].approvedBy != d.holds[e].requestedBy)
            && (forall e | e in d.holds && d.holds[e].status == Rejected :: e !in d.booked)
  {
    SafeRunsAreClean(f, ms);
    CounterIsClaims(f, ms);
    var d := Run(START, f, ms).desk;
    Maps.SumOfPart(BookedOn(d, day), OnDay(d.claims, day));
    hide Maps.Sum;
  }

  // ------------------------------------------------------------------ and without that hypothesis

  const FEED := Feed(10, 15, map[1 := 10, 2 := 10])
  const FIRST := Delivery(1, 0, true, Booking)
  const SECOND := Delivery(1, 0, false, Booking)

  /** Two deliveries of event 1 overlap; the first fails and gives the reservation back. */
  lemma OverlapBegins()
    ensures Run(START, FEED, [Arrive(1, 0), Arrive(1, 0), FailDelivery(0), ReleaseDelivery(0)])
            == System(Desk(map[], map[0 := 0], map[], map[]), [SECOND])
  {
    var s1 := System(Desk(map[1 := Claim(0, 10)], map[0 := 10], map[], map[]), [FIRST]);
    var s2 := s1.(inFlight := [FIRST, SECOND]);
    var s3 := s1.(inFlight := [FIRST.(phase := Releasing), SECOND]);
    assert Step(START, FEED, Arrive(1, 0)) == s1;
    assert Step(s1, FEED, Arrive(1, 0)) == s2;
    assert Step(s2, FEED, FailDelivery(0)) == s3;
    FirstGivesBack(s3);
    hide Step;
    RunOf(FEED, [], Arrive(1, 0));
    RunOf(FEED, [Arrive(1, 0)], Arrive(1, 0));
    RunOf(FEED, [Arrive(1, 0), Arrive(1, 0)], FailDelivery(0));
    RunOf(FEED, [Arrive(1, 0), Arrive(1, 0), FailDelivery(0)], ReleaseDelivery(0));
    assert [] + [Arrive(1, 0)] == [Arrive(1, 0)];
    assert [Arrive(1, 0)] + [Arrive(1, 0)] == [Arrive(1, 0), Arrive(1, 0)];
    assert [Arrive(1, 0), Arrive(1, 0)] + [FailDelivery(0)] == [Arrive(1, 0), Arrive(1, 0), FailDelivery(0)];
    assert [Arrive(1, 0), Arrive(1, 0), FailDelivery(0)] + [ReleaseDelivery(0)]
        == [Arrive(1, 0), Arrive(1, 0), FailDelivery(0), ReleaseDelivery(0)];
  }

  lemma FirstGivesBack(s3: System)
    requires s3 == System(Desk(map[1 := Claim(0, 10)], map[0 := 10], map[], map[]), [FIRST.(phase := Releasing), SECOND])
    ensures Step(s3, FEED, ReleaseDelivery(0)) == System(Desk(map[], map[0 := 0], map[], map[]), [SECOND])
  {
    assert s3.desk.claims - {1} == map[];
    assert s3.desk.counters[0 := 0] == map[0 := 0];
    assert FEED.Amount(1) == 10;
    assert Without(s3.inFlight, 0) == [SECOND];
  }

  /** Event 2 takes the day's capacity and is booked; a third delivery of event 1 is held and an operator
      rejects it; then the second delivery books it. */
  lemma OverlapEnds(s4: System)
    requires s4 == System(Desk(map[], map[0 := 0], map[], map[]), [SECOND])
    ensures var s5 := Step(s4, FEED, Arrive(2, 0));
            var s6 := Step(s5, FEED, BookDelivery(1));
            var s7 := Step(s6, FEED, Arrive(1, 0));
            var s8 := Step(s7, FEED, Reject(1));
            var s9 := Step(s8, FEED, BookDelivery(0));
            s9.desk.holds == map[1 := Hold(Rejected, None, None)] && s9.desk.booked == map[1 := ByWebhook, 2 := ByWebhook]
  {
    var third := Delivery(2, 0, true, Booking);
    var s5 := System(Desk(map[2 := Claim(0, 10)], map[0 := 10], map[], map[]), [SECOND, third]);
    assert Step(s4, FEED, Arrive(2, 0)) == s5 by {
      assert s4.desk.counters[0 := 10] == map[0 := 10];
    }
    var s6 := System(s5.desk.(booked := map[2 := ByWebhook]), [SECOND]);
    assert Step(s5, FEED, BookDelivery(1)) == s6 by {
      assert Without(s5.inFlight, 1) == [SECOND];
    }
    var s7 := System(s6.desk.(holds := map[1 := Hold(Held, None, None)]), [SECOND]);
    assert Step(s6, FEED, Arrive(1, 0)) == s7;
    var s8 := System(s6.desk.(holds := map[1 := Hold(Rejected, None, None)]), [SECOND]);
    assert Step(s7, FEED, Reject(1)) == s8 by {
      assert s7.desk.holds[1 := Hold(Rejected, None, None)] == map[1 := Hold(Rejected, None, None)];
    }
  }

  /** Without safe releases the claims fail: the rejected event's money is in the book, and the day's booked
      money is over the ceiling. */
  lemma OverlapBooksRejected()
    ensures exists ms: seq<Move> ::
              var d := Run(START, FEED, ms).desk;
              d.holds == map[1 := Hold(Rejected, None, None)] && d.booked == map[1 := ByWebhook, 2 := ByWebhook]
    ensures FEED.Valid() && FEED.Amount(1) + FEED.Amount(2) > FEED.ceiling
  {
    hide Step, Run;
    var m4 := [Arrive(1, 0), Arrive(1, 0), FailDelivery(0), ReleaseDelivery(0)];
    OverlapBegins();
    OverlapEnds(Run(START, FEED, m4));
    RunOf(FEED, m4, Arrive(2, 0));
    RunOf(FEED, m4 + [Arrive(2, 0)], BookDelivery(1));
    RunOf(FEED, m4 + [Arrive(2, 0)] + [BookDelivery(1)], Arrive(1, 0));
    RunOf(FEED, m4 + [Arrive(2, 0)] + [BookDelivery(1)] + [Arrive(1, 0)], Reject(1));
    RunOf(FEED, m4 + [Arrive(2, 0)] + [BookDelivery(1)] + [Arrive(1, 0)] + [Reject(1)], BookDelivery(0));
  }

  lemma RunOf(f: Feed, ms: seq<Move>, m: Move)
    ensures Run(START, f, ms + [m]) == Step(Run(START, f, ms), f, m)
    ensures Run(START, f, []) == START
  {
    hide Step;
    assert (ms + [m])[..|ms|] == ms;
  }
}
