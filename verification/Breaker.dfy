/** The per-telco circuit breaker, refined to the list of outcomes since the last trip or reset, and the
    adapter's submit call that drives it. */
module Breaker {
  import opened Common

  datatype State = Closed | Open | HalfOpen

  /** How many of the outcomes are failures. */
  function Failures(h: seq<bool>): nat {
    if h == [] then 0 else Failures(h[..|h| - 1]) + if h[|h| - 1] then 1 else 0
  }

  function Last(h: seq<bool>, n: nat): seq<bool> {
    if |h| <= n then h else h[|h| - n..]
  }

  /** The sample is full and the failing share of the last n outcomes reaches the threshold. */
  predicate ReachesThreshold(h: seq<bool>, n: nat, minRequests: int, thresholdPct: int) {
    var w := Last(h, n);
    |w| >= minRequests && Failures(w) * 100 >= thresholdPct * |w|
  }

  lemma {:induction false} FailuresDropFirst(h: seq<bool>)
    requires h != []
    ensures Failures(h) == Failures(h[1..]) + if h[0] then 1 else 0
  {
    if |h| > 1 {
      var n := |h| - 1;
      FailuresDropFirst(h[..n]);
      assert h[..n][1..] == h[1..][..n - 1];
    }
  }

  lemma FailuresAppend(h: seq<bool>, x: bool)
    ensures Failures(h + [x]) == Failures(h) + if x then 1 else 0
  {
    assert (h + [x])[..|h|] == h;
  }

  /** One more outcome drops the oldest of a full window and counts itself. */
  lemma SlidingWindow(h: seq<bool>, x: bool, n: nat)
    requires n > 0
    ensures var was := Last(h, n);
            && (if |h| <= n then was == h else |was| == n)
            && (|h| < n ==> Last(h + [x], n) == h + [x])
            && Last(h + [x], n) == (if |was| == n then was[1..] else was) + [x]
            && Failures(Last(h + [x], n))
               == Failures(was) - (if |was| == n && was[0] then 1 else 0) + (if x then 1 else 0)
  {
    var was := Last(h, n);
    if |was| == n {
      FailuresDropFirst(was);
      FailuresAppend(was[1..], x);
      assert Last(h + [x], n) == was[1..] + [x];
    } else {
      FailuresAppend(was, x);
      assert Last(h + [x], n) == was + [x];
    }
  }

  /** The slot after `k` in a ring of `n`. */
  function Next(k: nat, n: nat): nat
    requires k < n
  {
    (k + 1) % n
  }

  lemma NextIs(k: nat, n: nat)
    requires k < n
    ensures Next(k, n) == if k + 1 == n then 0 else k + 1
  {
  }

  // ------------------------------------------------------------------ the circuit as a value

  datatype Params = Params(thresholdPct: int, minRequests: int, cooldown: int) {
    function Window(): nat { if minRequests < 1 then 1 else minRequests }
  }

  /** State, end of the cooldown, and the outcomes since the last trip or reset, true for a failure. */
  datatype View = View(state: State, openUntil: int, history: seq<bool>)

  /** A closed circuit admits every call, an open one none until its cooldown has passed and then one probe, a
      half-open one none. */
  predicate Admits(v: View, now: int) {
    v.state == Closed || (v.state == Open && now >= v.openUntil)
  }

  function Allowed(v: View, now: int): View {
    if v.state == Open && now >= v.openUntil then v.(state := HalfOpen) else v
  }

  /** A half-open circuit is decided by the next outcome; any other outcome joins the history, and the circuit
      opens exactly when the last `Window()` outcomes reach the threshold. */
  function Recorded(v: View, success: bool, now: int, p: Params): View {
    if v.state == HalfOpen then
      if success then View(Closed, v.openUntil, []) else View(Open, now + p.cooldown, [])
    else
      var h := v.history + [!success];
      if ReachesThreshold(h, p.Window(), p.minRequests, p.thresholdPct) then View(Open, now + p.cooldown, [])
      else v.(history := h)
  }

  class Circuit {
    const thresholdPct: int
    const minRequests: int
    const cooldown: int
    var state: State
    const window: array<bool>
    var pos: int
    var filled: int
    var failures: int
    var openUntil: int
    /** Outcomes since the last trip or reset, true for a failure. */
    ghost var history: seq<bool>

    ghost function Parameters(): Params { Params(thresholdPct, minRequests, cooldown) }

    ghost function Abstract(): View
      reads this
    {
      View(state, openUntil, history)
    }

    ghost predicate Valid()
      reads this, window
    {
      var n := window.Length;
      && n == (if minRequests < 1 then 1 else minRequests)
      && 0 <= pos < n
      && filled == |Last(history, n)|
      && failures == Failures(Last(history, n))
      && (filled < n ==> pos == filled && (forall i | 0 <= i < filled :: window[i] == history[i]))
      && (filled == n ==>
            && (forall i | pos <= i < n :: window[i] == Last(history, n)[i - pos])
            && (forall i | 0 <= i < pos :: window[i] == Last(history, n)[n - pos + i]))
    }

    constructor (thresholdPct: int, minRequests: int, cooldown: int)
      ensures Valid() && Abstract() == View(Closed, 0, [])
      ensures this.thresholdPct == thresholdPct && this.minRequests == minRequests && this.cooldown == cooldown
      ensures fresh(window)
    {
      this.thresholdPct, this.minRequests, this.cooldown := thresholdPct, minRequests, cooldown;
      state := Closed;
      window := new bool[if minRequests < 1 then 1 else minRequests](_ => false);
      pos, filled, failures, openUntil := 0, 0, 0, 0;
      history := [];
    }

    method Allow(now: int) returns (ok: bool)
      requires Valid()
      modifies this`state
      ensures Valid()
      ensures ok == Admits(old(Abstract()), now)
      ensures Abstract() == Allowed(old(Abstract()), now)
    {
      match state
      case Open =>
        if now < openUntil {
          return false;
        }
        state := HalfOpen;
        return true;
      case HalfOpen => return false;
      case Closed => return true;
    }

    /** The counters of the ring decide as the whole history would. */
    method Record(success: bool, now: int)
      requires Valid()
      modifies this, window
      ensures Valid()
      ensures Abstract() == Recorded(old(Abstract()), success, now, Parameters())
    {
      hide Valid, ReachesThreshold, Failures, Last;
      if state == HalfOpen {
        if success {
          Reset();
        } else {
          Trip(now);
        }
        return;
      }
      Slide(success);
      CountersDecide();
      if filled >= minRequests && failures * 100 >= thresholdPct * filled {
        Trip(now);
      }
    }

    lemma CountersDecide()
      requires Valid()
      ensures window.Length == Parameters().Window()
      ensures ReachesThreshold(history, Parameters().Window(), minRequests, thresholdPct)
              <==> filled >= minRequests && failures * 100 >= thresholdPct * filled
    {
      hide Failures, Last;
    }

    method Slide(success: bool)
      requires Valid()
      modifies this`pos, this`filled, this`failures, this`history, window
      ensures Valid() && history == old(history) + [!success]
    {
      hide Failures, Last, Next;
      NextIs(pos, window.Length);
      SlidingWindow(history, !success, window.Length);
      if filled == window.Length {
        if window[pos] {
          failures := failures - 1;
        }
      } else {
        filled := filled + 1;
      }
      window[pos] := !success;
      if !success {
        failures := failures + 1;
      }
      pos := Next(pos, window.Length);
      history := history + [!success];
    }

    method Trip(now: int)
      requires Valid()
      modifies this, window
      ensures Valid() && state == Open && openUntil == now + cooldown && history == []
    {
      state := Open;
      openUntil := now + cooldown;
      ClearWindow();
    }

    method Reset()
      requires Valid()
      modifies this, window
      ensures Valid() && state == Closed && openUntil == old(openUntil) && history == []
    {
      state := Closed;
      ClearWindow();
    }

    method ClearWindow()
      requires window.Length == if minRequests < 1 then 1 else minRequests
      modifies this`pos, this`filled, this`failures, this`history, window
      ensures Valid() && history == []
    {
      var i := 0;
      while i < window.Length
        invariant 0 <= i <= window.Length
      {
        window[i] := false;
        i := i + 1;
      }
      pos, filled, failures := 0, 0, 0;
      history := [];
    }
  }

  // ------------------------------------------------------------------ the adapter's submit call

  datatype Outcome = Confirmed | Failed | Unknown | NotFound

  datatype Body = Unreadable | NotJson | StatusText(status: string)

  datatype Response = Response(code: int, body: Body)

  /** What one submit call meets on its way: local faults before the dial, then the telco or a transport
      error (None). */
  datatype Call = Call(configOk: bool, encodeOk: bool, buildOk: bool, authOk: bool, answer: Option<Response>)

  datatype SubmitResult = SubmitResult(outcome: Outcome, notSent: bool)

  predicate DefinitiveRejection(code: int) {
    code == 400 || code == 401 || code == 403 || code == 404 || code == 409 || code == 422
  }

  predicate ReachesDial(c: Call) {
    c.configOk && c.encodeOk && c.buildOk && c.authOk
  }

  function StatusOutcome(status: string): Outcome {
    if status == "SUCCESS" then Confirmed else if status == "FAILED" then Failed else Unknown
  }

  /** How an answer, or its absence, is classified once the request was dialled. */
  function Classify(answer: Option<Response>): Outcome {
    match answer
    case None => Unknown
    case Some(r) =>
      if r.body.Unreadable? then Unknown
      else if r.code != 200 then if DefinitiveRejection(r.code) then Failed else Unknown
      else if r.body.NotJson? then Unknown
      else StatusOutcome(r.body.status)
  }

  /** A dialled request is FAILED only on the telco's own word, and CONFIRMED only on a 200 SUCCESS: time-outs,
      5xx, 408, 429, unreadable or unknown answers all stay UNKNOWN. */
  lemma ClassifyIsConservative(answer: Option<Response>)
    ensures Classify(answer) == Confirmed <==>
              answer.Some? && answer.value.code == 200 && answer.value.body == StatusText("SUCCESS")
    ensures Classify(answer) == Failed <==>
              answer.Some? && !answer.value.body.Unreadable? &&
              (DefinitiveRejection(answer.value.code) || (answer.value.code == 200 && answer.value.body == StatusText("FAILED")))
    ensures Classify(answer) != NotFound
    ensures answer.Some? && (answer.value.code >= 500 || answer.value.code == 408 || answer.value.code == 429) ==>
              Classify(answer) == Unknown
  {
    assert "SUCCESS" != "FAILED";
  }

  /** The telco answered at all, and not with a server error. */
  predicate Healthy(c: Call) {
    c.answer.Some? && c.answer.value.code < 500
  }

  /** What one submit call does to the circuit: nothing before the admission, the admission itself, and an
      outcome exactly when the request is dialled. */
  function Submitted(v: View, c: Call, now: int, later: int, p: Params): View {
    if !c.configOk || !c.encodeOk then v
    else if Admits(v, now) && ReachesDial(c) then Recorded(Allowed(v, now), Healthy(c), later, p)
    else Allowed(v, now)
  }

  /** The submit call: sends at most once, tells apart what was never dialled, and feeds the breaker exactly
      when it dialled. */
  method SubmitFulfilment(br: Circuit, c: Call, now: int, later: int) returns (r: SubmitResult, dialled: bool)
    requires br.Valid()
    modifies br, br.window
    ensures br.Valid()
    ensures r.notSent <==> !dialled
    ensures dialled <==> ReachesDial(c) && Admits(old(br.Abstract()), now)
    ensures r.outcome == if dialled then Classify(c.answer) else Failed
    ensures br.Abstract() == Submitted(old(br.Abstract()), c, now, later, br.Parameters())
  {
    dialled := false;
    if !c.configOk {
      return SubmitResult(Failed, true), false;
    }
    if !c.encodeOk {
      return SubmitResult(Failed, true), false;
    }
    var admitted := br.Allow(now);
    if !admitted {
      return SubmitResult(Failed, true), false;
    }
    if !c.buildOk {
      return SubmitResult(Failed, true), false;
    }
    if !c.authOk {
      return SubmitResult(Failed, true), false;
    }
    dialled := true;
    if c.answer.None? {
      br.Record(false, later);
      return SubmitResult(Unknown, false), dialled;
    }
    var resp := c.answer.value;
    br.Record(resp.code < 500, later);
    if resp.body.Unreadable? {
      return SubmitResult(Unknown, false), dialled;
    }
    if resp.code != 200 {
      if DefinitiveRejection(resp.code) {
        return SubmitResult(Failed, false), dialled;
      }
      return SubmitResult(Unknown, false), dialled;
    }
    if resp.body.NotJson? {
      return SubmitResult(Unknown, false), dialled;
    }
    return SubmitResult(StatusOutcome(resp.body.status), false), dialled;
  }

  // ------------------------------------------------------------------ one call after another

  datatype Attempt = Attempt(call: Call, now: int, later: int)

  function Submits(v: View, calls: seq<Attempt>, p: Params): View {
    if calls == [] then v
    else
      var n := |calls| - 1;
      Submitted(Submits(v, calls[..n], p), calls[n].call, calls[n].now, calls[n].later, p)
  }

  /** The call is admitted as the probe and ends before the dial. */
  predicate LosesProbe(v: View, a: Attempt) {
    && v.state == Open && a.now >= v.openUntil
    && a.call.configOk && a.call.encodeOk && !(a.call.buildOk && a.call.authOk)
  }

  /** A call recovers an open circuit exactly when its cooldown is over, the call is dialled and the telco
      answers below 500; a circuit that is half-open stays so. */
  lemma ProbeRecoversIff(v: View, a: Attempt, p: Params)
    ensures v.state == Open ==>
              (Submitted(v, a.call, a.now, a.later, p).state == Closed
               <==> a.now >= v.openUntil && ReachesDial(a.call) && Healthy(a.call))
    ensures v.state == HalfOpen ==> Submitted(v, a.call, a.now, a.later, p) == v && !Admits(v, a.now)
    ensures v.state != HalfOpen ==> (Submitted(v, a.call, a.now, a.later, p).state == HalfOpen <==> LosesProbe(v, a))
  {
    hide ReachesThreshold;
  }

  /** Call `i` of the run loses the probe. */
  predicate LostAt(v: View, calls: seq<Attempt>, i: nat, p: Params)
    requires i < |calls|
  {
    LosesProbe(Submits(v, calls[..i], p), calls[i])
  }

  lemma LostAtPrefix(v: View, calls: seq<Attempt>, n: nat, i: nat, p: Params)
    requires i < n <= |calls|
    ensures LostAt(v, calls[..n], i, p) == LostAt(v, calls, i, p)
  {
    hide LosesProbe, Submits;
    assert calls[..n][..i] == calls[..i];
  }

  /** Over any run of calls, one after another: the circuit ends half-open, and so never dials again, exactly
      when some probe was lost before its dial. */
  lemma {:induction false} BlockedIff(v: View, calls: seq<Attempt>, p: Params)
    requires v.state != HalfOpen
    ensures Submits(v, calls, p).state == HalfOpen <==> exists i :: 0 <= i < |calls| && LostAt(v, calls, i, p)
  {
    if calls != [] {
      var n := |calls| - 1;
      var y, z := Submits(v, calls[..n], p), Submits(v, calls, p);
      BlockedIff(v, calls[..n], p);
      ProbeRecoversIff(y, calls[n], p);
      assert LostAt(v, calls, n, p) == LosesProbe(y, calls[n]);
      BlockedMore(v, calls[..n], calls, y, z, p);
    }
  }

  lemma BlockedMore(v: View, was: seq<Attempt>, calls: seq<Attempt>, y: View, z: View, p: Params)
    requires calls != [] && was == calls[..|calls| - 1]
    requires y.state == HalfOpen <==> exists i :: 0 <= i < |was| && LostAt(v, was, i, p)
    requires y.state == HalfOpen ==> z == y && !LostAt(v, calls, |calls| - 1, p)
    requires y.state != HalfOpen ==> (z.state == HalfOpen <==> LostAt(v, calls, |calls| - 1, p))
    ensures z.state == HalfOpen <==> exists i :: 0 <= i < |calls| && LostAt(v, calls, i, p)
  {
    hide LostAt;
    var n := |calls| - 1;
    forall i | 0 <= i < n ensures LostAt(v, was, i, p) == LostAt(v, calls, i, p) {
      LostAtPrefix(v, calls, n, i, p);
    }
    if y.state == HalfOpen {
      var i :| 0 <= i < n && LostAt(v, was, i, p);
      assert LostAt(v, calls, i, p);
    }
  }

  /** The probe that is lost: once the admitted probe ends before the dial (its request cannot be built or
      authenticated), nothing is recorded and the circuit stays half-open: no later call is ever dialled,
      whatever the telco's health and however long one waits. */
  method LostProbeBlocksForever(br: Circuit, probe: Attempt, calls: seq<Attempt>) returns (dials: int)
    requires br.Valid() && LosesProbe(br.Abstract(), probe)
    modifies br, br.window
    ensures br.Valid() && br.Abstract() == old(br.Abstract()).(state := HalfOpen) && dials == 0
  {
    var _, sent := SubmitFulfilment(br, probe.call, probe.now, probe.later);
    dials := if sent then 1 else 0;
    for i := 0 to |calls|
      invariant br.Valid() && br.Abstract() == old(br.Abstract()).(state := HalfOpen) && dials == 0
    {
      var _, s := SubmitFulfilment(br, calls[i].call, calls[i].now, calls[i].later);
      if s {
        dials := dials + 1;
      }
    }
  }

  // ------------------------------------------------------------------ calls in flight together

  /** The circuit and the admitted calls that have not reported yet. */
  datatype Traffic = Traffic(view: View, inFlight: set<nat>)

  datatype Signal = Ask(call: nat, now: int) | Report(call: nat, success: bool, now: int)

  predicate Effective(y: Traffic, e: Signal) {
    e.Report? && e.call in y.inFlight
  }

  predicate Admitted(y: Traffic, e: Signal) {
    e.Ask? && e.call !in y.inFlight && Admits(y.view, e.now)
  }

  /** An admitted call is in flight until it reports its outcome, once. */
  function After(y: Traffic, e: Signal, p: Params): Traffic {
    match e
    case Ask(c, now) =>
      if c in y.inFlight then y
      else Traffic(Allowed(y.view, now), if Admits(y.view, now) then y.inFlight + {c} else y.inFlight)
    case Report(c, success, now) =>
      if c in y.inFlight then Traffic(Recorded(y.view, success, now, p), y.inFlight - {c}) else y
  }

  function Run(y: Traffic, es: seq<Signal>, p: Params): Traffic {
    if es == [] then y else After(Run(y, es[..|es| - 1], p), es[|es| - 1], p)
  }

  /** However many calls ask, a half-open circuit admits none until an outcome is reported, and the first one
      reported decides it: closed on a success, open again on a failure. */
  lemma {:induction false} OneProbe(y: Traffic, es: seq<Signal>, e: Signal, p: Params)
    requires y.view.state == HalfOpen
    requires forall i | 0 <= i < |es| :: !Effective(Run(y, es[..i], p), es[i])
    ensures Run(y, es, p) == y && !Admitted(y, e)
    ensures After(y, e, p).view.state != HalfOpen <==> Effective(y, e)
    ensures Effective(y, e) ==> After(y, e, p).view.state == if e.success then Closed else Open
  {
    if es != [] {
      var n := |es| - 1;
      forall i | 0 <= i < n ensures !Effective(Run(y, es[..n][..i], p), es[..n][i]) {
        assert es[..n][..i] == es[..i];
      }
      OneProbe(y, es[..n], e, p);
      assert !Effective(Run(y, es[..n], p), es[n]);
    }
  }

  /** In any run, two probes are never admitted without an outcome reported between them. */
  lemma {:induction false} ReportBetweenProbes(y: Traffic, es: seq<Signal>, i: nat, j: nat, p: Params)
    requires i < j < |es|
    requires Run(y, es[..i], p).view.state == Open && Admitted(Run(y, es[..i], p), es[i])
    requires Admitted(Run(y, es[..j], p), es[j])
    ensures exists k :: i < k < j && Effective(Run(y, es[..k], p), es[k])
  {
    RunNext(y, es, i, p);
    if forall k | i < k < j :: !Effective(Run(y, es[..k], p), es[k]) {
      Unreported(y, es, i + 1, j, p);
      assert false;
    }
  }

  lemma RunNext(y: Traffic, es: seq<Signal>, i: nat, p: Params)
    requires i < |es|
    ensures Run(y, es[..i + 1], p) == After(Run(y, es[..i], p), es[i], p)
  {
    hide After;
    assert es[..i + 1][..i] == es[..i];
  }

  lemma {:induction false} Unreported(y: Traffic, es: seq<Signal>, i: nat, j: nat, p: Params)
    requires i <= j <= |es| && Run(y, es[..i], p).view.state == HalfOpen
    requires forall k | i <= k < j :: !Effective(Run(y, es[..k], p), es[k])
    ensures Run(y, es[..j], p) == Run(y, es[..i], p)
    decreases j
  {
    hide Run;
    if i < j {
      Unreported(y, es, i, j - 1, p);
      RunNext(y, es, j - 1, p);
    }
  }

  /** The outcome that decides a half-open circuit is sure to be its probe's exactly when no earlier call is
      still in flight as the probe is admitted: the circuit does not know whose outcome it records. */
  lemma ProbeDecidesIff(y: Traffic, probe: nat, now: int, p: Params)
    requires y.view.state == Open && now >= y.view.openUntil && probe !in y.inFlight
    ensures var z := After(y, Ask(probe, now), p);
            && z.view.state == HalfOpen
            && ((forall e :: Effective(z, e) ==> e.call == probe) <==> y.inFlight == {})
  {
    var z := After(y, Ask(probe, now), p);
    if y.inFlight != {} {
      var c := AnyOf(y.inFlight);
      assert Effective(z, Report(c, true, now)) && c != probe;
    }
  }

  lemma AnyOf<T>(s: set<T>) returns (x: T)
    requires s != {}
    ensures x in s
  {
    x :| x in s;
  }

  /** A call admitted before the trip reports its success during the probe and closes the circuit; the probe
      then reports that the telco is still down. */
  lemma StaleOutcomeCloses()
    ensures var p := Params(100, 1, 10);
            var y := Run(Traffic(View(Closed, 0, []), {}), [Ask(1, 0), Ask(2, 0), Report(2, false, 1), Ask(3, 11)], p);
            && y.view.state == HalfOpen && y.inFlight == {1, 3}
            && After(y, Report(1, true, 12), p).view.state == Closed
            && After(y, Report(1, true, 12), p).inFlight == {3}
  {
    var p := Params(100, 1, 10);
    var y0 := Traffic(View(Closed, 0, []), {});
    var es := [Ask(1, 0), Ask(2, 0), Report(2, false, 1), Ask(3, 11)];
    assert es[..3][..2] == es[..2] && es[..2][..1] == es[..1] && es[..1][..0] == [];
    assert Run(y0, es[..1], p) == Traffic(View(Closed, 0, []), {1});
    assert Run(y0, es[..2], p) == Traffic(View(Closed, 0, []), {1, 2});
    assert Last([true], 1) == [true] && Failures([true]) == 1;
    assert Recorded(View(Closed, 0, []), false, 1, p) == View(Open, 11, []);
    assert Run(y0, es[..3], p) == Traffic(View(Open, 11, []), {1});
  }

  /** While the clock does not run back, a tripped circuit admits nothing before its cooldown is over, whatever
      outcomes of earlier calls still come in. */
  lemma {:induction false} CooldownHolds(y: Traffic, es: seq<Signal>, p: Params)
    requires y.view.state == Open
    requires forall i | 0 <= i < |es| :: if es[i].Ask? then es[i].now < y.view.openUntil else es[i].now + p.cooldown >= y.view.openUntil
    ensures Run(y, es, p).view.state == Open && Run(y, es, p).view.openUntil >= y.view.openUntil
    ensures forall i | 0 <= i < |es| :: !Admitted(Run(y, es[..i], p), es[i])
  {
    if es != [] {
      var n := |es| - 1;
      CooldownHolds(y, es[..n], p);
      forall i | 0 <= i < n ensures !Admitted(Run(y, es[..i], p), es[i]) {
        assert es[..n][..i] == es[..i] && es[..n][i] == es[i];
      }
      hide ReachesThreshold;
    }
  }
}
