/** The token bucket all replicas share: one upsert per call, in thousandths of a token. Times are real
    seconds. */
module TokenBucket {

  datatype Quota = Quota(burst: int, refill: int, effectiveFrom: int)

  /** What the boot-time reader and the table's CHECKs let through. */
  predicate GoodQuota(q: Quota) { 1000 <= q.burst <= 1_000_000_000 && 1 <= q.refill <= 10_000_000 }

  datatype Row = Row(tokens: int, quota: Quota, last: real)

  predicate GoodRow(r: Row) { GoodQuota(r.quota) && 0 <= r.tokens <= r.quota.burst }

  /** The wall clock is read anew at each mention of clock_timestamp(): for the balance, for the spend, for
      whether and how far the refill time moves, and for the grant that is returned. */
  datatype Readings = Readings(balance: real, spend: real, moved: real, move: real, grant: real)

  function At(t: real): Readings { Readings(t, t, t, t, t) }

  /** Whole milli-tokens earned since the last refill; a clock that went back earns none. */
  function Earned(r: Row, rate: int, t: real): nat {
    if t <= r.last then 0
    else
      var f := ((t - r.last) * rate as real).Floor;
      if f < 0 then 0 else f
  }

  function AtMost(x: int, cap: int): int { if x <= cap then x else cap }

  /** A strictly newer quota is adopted. */
  function Adopted(r: Row, q: Quota): Quota {
    if q.effectiveFrom > r.quota.effectiveFrom then q else r.quota
  }

  datatype Taken = Taken(row: Row, granted: bool, spent: bool)

  /** The conflict branch of the upsert on an existing row, before the table's CHECKs. */
  function Update(r: Row, q: Quota, c: Readings): Taken
    requires GoodQuota(r.quota) && GoodQuota(q)
  {
    var eff := Adopted(r, q);
    var spent := AtMost(r.tokens + Earned(r, eff.refill, c.spend), eff.burst) >= 1000;
    var tokens := AtMost(r.tokens + Earned(r, eff.refill, c.balance), eff.burst) - if spent then 1000 else 0;
    var last := if Earned(r, eff.refill, c.moved) > 0
                then r.last + Earned(r, eff.refill, c.move) as real / eff.refill as real else r.last;
    Taken(Row(tokens, eff, last), AtMost(r.tokens + Earned(r, eff.refill, c.grant), eff.burst) >= 1000, spent)
  }

  datatype Ask = Ask(quota: Quota, c: Readings)

  predicate GoodAsk(a: Ask) { GoodQuota(a.quota) }

  /** The row after one call: a result that breaks a CHECK leaves the row alone. */
  function Step(r: Row, a: Ask): (z: Row)
    requires GoodRow(r) && GoodAsk(a)
    ensures GoodRow(z)
  {
    var t := Update(r, a.quota, a.c);
    if GoodRow(t.row) then t.row else r
  }

  predicate Commits(r: Row, a: Ask)
    requires GoodRow(r) && GoodAsk(a)
  {
    GoodRow(Update(r, a.quota, a.c).row)
  }

  predicate Granted(r: Row, a: Ask)
    requires GoodRow(r) && GoodAsk(a)
  {
    Commits(r, a) && Update(r, a.quota, a.c).granted
  }

  predicate Spent(r: Row, a: Ask)
    requires GoodRow(r) && GoodAsk(a)
  {
    Commits(r, a) && Update(r, a.quota, a.c).spent
  }

  /** The shared store: one row of the buckets table, absent until first touched. */
  class Store {
    var present: bool
    var tokens: int
    var burst: int
    var refill: int
    var effectiveFrom: int
    var last: real

    ghost function Contents(): Row
      reads this
    {
      Row(tokens, Quota(burst, refill, effectiveFrom), last)
    }

    ghost predicate Valid()
      reads this
    {
      present ==> GoodRow(Contents())
    }

    constructor ()
      ensures Valid() && !present
    {
      present, tokens, burst, refill, effectiveFrom, last := false, 0, 0, 0, 0, 0.0;
    }

    /** First touch inserts a full bucket less one token; later calls update the row, unless the result would
        break a CHECK, which leaves the row alone and errs. */
    method Take(q: Quota, c: Readings) returns (granted: bool, failed: bool)
      requires Valid() && GoodQuota(q)
      modifies this
      ensures Valid() && present
      ensures !old(present) ==> granted && !failed && Contents() == Row(q.burst - 1000, q, c.balance)
      ensures old(present) ==>
                && failed == !Commits(old(Contents()), Ask(q, c))
                && Contents() == Step(old(Contents()), Ask(q, c))
                && granted == Granted(old(Contents()), Ask(q, c))
    {
      hide Earned;
      if !present {
        present, tokens, burst, refill, effectiveFrom, last := true, q.burst - 1000, q.burst, q.refill, q.effectiveFrom, c.balance;
        return true, false;
      }
      var was := Row(tokens, Quota(burst, refill, effectiveFrom), last);
      var newer := q.effectiveFrom > effectiveFrom;
      var b, rate := if newer then q.burst else burst, if newer then q.refill else refill;
      var spent := AtMost(tokens + Earned(was, rate, c.spend), b) >= 1000;
      var left := AtMost(tokens + Earned(was, rate, c.balance), b) - if spent then 1000 else 0;
      if left < 0 || left > b {
        return false, true;
      }
      granted := AtMost(tokens + Earned(was, rate, c.grant), b) >= 1000;
      if Earned(was, rate, c.moved) > 0 {
        last := last + Earned(was, rate, c.move) as real / rate as real;
      }
      tokens, burst, refill := left, b, rate;
      effectiveFrom := if newer then q.effectiveFrom else effectiveFrom;
      failed := false;
    }
  }

  // ------------------------------------------------------------------ what one statement keeps

  /** The statement evaluates its columns in order, so a clock that runs forward reads in this order. */
  predicate InOrder(c: Readings) {
    c.balance <= c.spend <= c.moved <= c.move <= c.grant
  }

  /** With one clock reading per statement the CHECKs never fire, and a grant is a spend. */
  lemma OneReadingIsExact(r: Row, q: Quota, t: real)
    requires GoodRow(r) && GoodQuota(q)
    ensures GoodRow(Update(r, q, At(t)).row)
    ensures Update(r, q, At(t)).granted == Update(r, q, At(t)).spent
  {
  }

  lemma EarnedGrows(r: Row, rate: int, s: real, t: real)
    requires rate > 0 && s <= t
    ensures Earned(r, rate, s) <= Earned(r, rate, t)
  {
    if s > r.last {
      ScaleOrder(s - r.last, t - r.last, rate as real);
    }
  }

  /** The time in which `n` milli-tokens are earned. */
  lemma EarnedBy(r: Row, rate: int, n: nat)
    requires rate > 0
    ensures Earned(r, rate, r.last + n as real / rate as real) == n
  {
    ScaleDiv(n, rate);
    var t := r.last + n as real / rate as real;
    assert t - r.last == n as real / rate as real;
    ScaleOrder(0.0, n as real / rate as real, rate as real);
  }

  /** A grant is a spend, and no CHECK fails, at every reading of the clock exactly when a whole token is on
      the row before the statement; below that, readings in order can already grant without spending. */
  lemma GrantIsSpendIff(r: Row, q: Quota)
    requires GoodRow(r) && GoodQuota(q)
    ensures r.tokens >= 1000 ==> forall c :: Commits(r, Ask(q, c)) && Granted(r, Ask(q, c)) && Spent(r, Ask(q, c))
    ensures (forall c | InOrder(c) :: Granted(r, Ask(q, c)) == Spent(r, Ask(q, c))) <==> r.tokens >= 1000
  {
    if r.tokens < 1000 {
      var rate := Adopted(r, q).refill;
      var t := r.last + (1000 - r.tokens) as real / rate as real;
      EarnedBy(r, rate, 1000 - r.tokens);
      EarnedBy(r, rate, 0);
      var c := Readings(r.last, r.last, r.last, r.last, t);
      ScaleOrder(0.0, (1000 - r.tokens) as real / rate as real, rate as real);
      ScaleDiv(1000 - r.tokens, rate);
      assert InOrder(c) && Granted(r, Ask(q, c)) && !Spent(r, Ask(q, c));
    }
  }

  /** With readings in order, a statement fails exactly when the token it would spend arrives after the balance
      was read. */
  lemma FailsIff(r: Row, a: Ask)
    requires GoodRow(r) && GoodAsk(a) && InOrder(a.c)
    ensures var rate := Adopted(r, a.quota).refill;
            !Commits(r, a) <==> r.tokens + Earned(r, rate, a.c.balance) < 1000 <= r.tokens + Earned(r, rate, a.c.spend)
    ensures Spent(r, a) ==> Granted(r, a)
  {
    EarnedGrows(r, Adopted(r, a.quota).refill, a.c.balance, a.c.spend);
    EarnedGrows(r, Adopted(r, a.quota).refill, a.c.spend, a.c.grant);
  }

  /** Nothing is earned between the first reading and the last. */
  predicate Steady(r: Row, a: Ask) {
    InOrder(a.c) && Earned(r, Adopted(r, a.quota).refill, a.c.balance) == Earned(r, Adopted(r, a.quota).refill, a.c.grant)
  }

  /** A steady statement is the statement with one reading. */
  lemma SteadyIsOneReading(r: Row, a: Ask)
    requires GoodRow(r) && GoodAsk(a) && Steady(r, a)
    ensures Update(r, a.quota, a.c) == Update(r, a.quota, At(a.c.balance))
  {
    var rate := Adopted(r, a.quota).refill;
    EarnedGrows(r, rate, a.c.balance, a.c.spend);
    EarnedGrows(r, rate, a.c.spend, a.c.moved);
    EarnedGrows(r, rate, a.c.moved, a.c.move);
    EarnedGrows(r, rate, a.c.move, a.c.grant);
  }

  // ------------------------------------------------------------------ runs of the statement

  ghost predicate GoodAsks(asks: seq<Ask>) {
    forall i | 0 <= i < |asks| :: GoodAsk(asks[i])
  }

  ghost function After(r: Row, asks: seq<Ask>): (z: Row)
    requires GoodRow(r) && GoodAsks(asks)
    ensures GoodRow(z)
  {
    if asks == [] then r else Step(After(r, asks[..|asks| - 1]), asks[|asks| - 1])
  }

  ghost function Grants(r: Row, asks: seq<Ask>): nat
    requires GoodRow(r) && GoodAsks(asks)
  {
    if asks == [] then 0
    else
      var n := |asks| - 1;
      Grants(r, asks[..n]) + if Granted(After(r, asks[..n]), asks[n]) then 1 else 0
  }

  ghost function Spends(r: Row, asks: seq<Ask>): nat
    requires GoodRow(r) && GoodAsks(asks)
  {
    if asks == [] then 0
    else
      var n := |asks| - 1;
      Spends(r, asks[..n]) + if Spent(After(r, asks[..n]), asks[n]) then 1 else 0
  }

  /** Grants that took no token. */
  ghost function FreeGrants(r: Row, asks: seq<Ask>): nat
    requires GoodRow(r) && GoodAsks(asks)
  {
    if asks == [] then 0
    else
      var n := |asks| - 1;
      var z := After(r, asks[..n]);
      FreeGrants(r, asks[..n]) + if Granted(z, asks[n]) && !Spent(z, asks[n]) then 1 else 0
  }

  /** Call `i` of the run reached the row. */
  ghost predicate Landed(r: Row, asks: seq<Ask>, i: nat)
    requires GoodRow(r) && GoodAsks(asks) && i < |asks|
  {
    Commits(After(r, asks[..i]), asks[i])
  }

  /** Call `i` landed with a quota newer than the row's at the start and than any that landed before. */
  ghost predicate Newest(r: Row, asks: seq<Ask>, i: nat)
    requires GoodRow(r) && GoodAsks(asks) && i < |asks|
  {
    && Landed(r, asks, i) && asks[i].quota.effectiveFrom > r.quota.effectiveFrom
    && forall j | 0 <= j < i && Landed(r, asks, j) :: asks[j].quota.effectiveFrom < asks[i].quota.effectiveFrom
  }

  /** One step in full: the quota, the balance and the refill time of a landed statement, or nothing at all. */
  lemma StepFacts(r: Row, a: Ask)
    requires GoodRow(r) && GoodAsk(a)
    ensures var z, eff := Step(r, a), Adopted(r, a.quota);
            && GoodRow(z) && eff.refill > 0
            && (!Commits(r, a) ==> z == r && !Spent(r, a) && !Granted(r, a))
            && (Commits(r, a) ==>
                  && z.quota == eff
                  && z.tokens <= r.tokens + Earned(r, eff.refill, a.c.balance) - (if Spent(r, a) then 1000 else 0)
                  && z.last == if Earned(r, eff.refill, a.c.moved) > 0
                               then r.last + Earned(r, eff.refill, a.c.move) as real / eff.refill as real else r.last)
  {
    hide Earned;
  }

  lemma {:induction false} PrefixRuns(r: Row, asks: seq<Ask>, n: nat)
    requires GoodRow(r) && GoodAsks(asks) && n <= |asks|
    ensures GoodAsks(asks[..n])
    ensures forall i | 0 <= i < n :: Landed(r, asks, i) == Landed(r, asks[..n], i) && Newest(r, asks, i) == Newest(r, asks[..n], i)
  {
    hide After, Commits;
    forall i | 0 <= i < n ensures Landed(r, asks, i) == Landed(r, asks[..n], i) {
      assert asks[..n][..i] == asks[..i];
    }
  }

  /** Over any run of any replicas' quotas, at any readings of any clocks: the row carries the newest quota that
      ever landed (the first to present it wins, and the row's own when none is newer), and its tokens stay
      within that quota's burst. */
  lemma {:induction false} NewestQuotaGoverns(r: Row, asks: seq<Ask>)
    requires GoodRow(r) && GoodAsks(asks)
    ensures var z := After(r, asks);
            && 0 <= z.tokens <= z.quota.burst
            && r.quota.effectiveFrom <= z.quota.effectiveFrom
            && (forall i | 0 <= i < |asks| && Landed(r, asks, i) :: asks[i].quota.effectiveFrom <= z.quota.effectiveFrom)
            && (z.quota == r.quota || exists i :: 0 <= i < |asks| && Newest(r, asks, i) && asks[i].quota == z.quota)
  {
    hide Step, Commits, Newest, Spent, Granted, Earned;
    if asks != [] {
      var n := |asks| - 1;
      NewestQuotaGoverns(r, asks[..n]);
      PrefixRuns(r, asks, n);
      StepFacts(After(r, asks[..n]), asks[n]);
      assert Landed(r, asks, n) == Commits(After(r, asks[..n]), asks[n]);
      NewestMore(r, asks, After(r, asks[..n]).quota, After(r, asks).quota);
    }
  }

  lemma NewestMore(r: Row, asks: seq<Ask>, before: Quota, after: Quota)
    requires GoodRow(r) && GoodAsks(asks) && asks != []
    requires var n := |asks| - 1;
             after == if Landed(r, asks, n) && asks[n].quota.effectiveFrom > before.effectiveFrom then asks[n].quota else before
    requires r.quota.effectiveFrom <= before.effectiveFrom
    requires forall i | 0 <= i < |asks| - 1 && Landed(r, asks, i) :: asks[i].quota.effectiveFrom <= before.effectiveFrom
    requires before == r.quota || exists i :: 0 <= i < |asks| - 1 && Newest(r, asks, i) && asks[i].quota == before
    ensures r.quota.effectiveFrom <= after.effectiveFrom
    ensures forall i | 0 <= i < |asks| && Landed(r, asks, i) :: asks[i].quota.effectiveFrom <= after.effectiveFrom
    ensures after == r.quota || exists i :: 0 <= i < |asks| && Newest(r, asks, i) && asks[i].quota == after
  {
    hide Landed;
    var n := |asks| - 1;
    if after != before {
      assert Newest(r, asks, n) && asks[n].quota == after;
    }
  }

  // ------------------------------------------------------------------ what a run may spend

  function Later(x: real, y: real): real { if x >= y then x else y }

  /** The refill time moves by exactly the time of the milli-tokens it claims, and never past the reading. */
  lemma MoveIsExact(r: Row, rate: int, t: real)
    requires rate > 0
    ensures var step := Earned(r, rate, t) as real / rate as real;
            && step >= 0.0 && step * rate as real == Earned(r, rate, t) as real
            && r.last + step <= Later(r.last, t)
  {
    var n := Earned(r, rate, t);
    var step := n as real / rate as real;
    ScaleDiv(n, rate);
    ScaleOrder(0.0, step, rate as real);
    if t > r.last {
      ScaleOrder(0.0, t - r.last, rate as real);
      ScaleOrder(step, t - r.last, rate as real);
    }
  }

  /** One statement: the balance and what was spent never outgrow the old balance and the move of the refill
      time at the fastest rate. */
  lemma SpendStep(r: Row, a: Ask, fastest: int)
    requires GoodRow(r) && GoodAsk(a) && InOrder(a.c) && Adopted(r, a.quota).refill <= fastest
    ensures var z := Step(r, a);
            && r.last <= z.last <= Later(r.last, a.c.move)
            && z.tokens as real + (if Spent(r, a) then 1000.0 else 0.0) <= r.tokens as real + (z.last - r.last) * fastest as real
  {
    hide Step, Commits, Spent, Granted, Earned, GoodRow, GoodQuota;
    StepFacts(r, a);
    var rate := Adopted(r, a.quota).refill;
    EarnedGrows(r, rate, a.c.balance, a.c.moved);
    EarnedGrows(r, rate, a.c.moved, a.c.move);
    MoveIsExact(r, rate, a.c.move);
    var m := Earned(r, rate, a.c.move);
    var moved := Step(r, a).last - r.last;
    if Commits(r, a) && Earned(r, rate, a.c.moved) > 0 {
      PaidFor(Earned(r, rate, a.c.balance), m, m as real / rate as real, moved, rate, fastest);
    } else {
      PaidFor(0, 0, 0.0, moved, rate, fastest);
    }
    if Commits(r, a) {
      LeftOver(Step(r, a).tokens, r.tokens, Earned(r, rate, a.c.balance), Spent(r, a), moved * fastest as real);
    }
  }

  lemma PaidFor(e: nat, m: nat, step: real, moved: real, rate: int, fastest: int)
    requires e <= m && 0 < rate <= fastest && step >= 0.0 && step * rate as real == m as real && moved == step
    ensures e as real <= moved * fastest as real
  {
    FasterEarnsMore(step, rate, fastest);
  }

  lemma LeftOver(left: int, tokens: int, earned: int, spent: bool, paid: real)
    requires left <= tokens + earned - (if spent then 1000 else 0) && earned as real <= paid
    ensures left as real + (if spent then 1000.0 else 0.0) <= tokens as real + paid
  {
  }

  lemma FasterEarnsMore(x: real, rate: int, fastest: int)
    requires x >= 0.0 && rate <= fastest
    ensures x * rate as real <= x * fastest as real
  {
  }

  /** No quota on the row or in the run refills faster. */
  ghost predicate NoFaster(r: Row, asks: seq<Ask>, fastest: int) {
    r.quota.refill <= fastest && forall i | 0 <= i < |asks| :: asks[i].quota.refill <= fastest
  }

  ghost predicate EachInOrder(asks: seq<Ask>) {
    forall i | 0 <= i < |asks| :: InOrder(asks[i].c)
  }

  /** The refill time pays for every token spent, through clamps, refusals, failed CHECKs, changes of quota and
      clocks that step back between statements: balance plus spent tokens never outgrow it. */
  lemma {:induction false} RefillPays(r: Row, asks: seq<Ask>, fastest: int, end: real)
    requires GoodRow(r) && GoodAsks(asks) && EachInOrder(asks) && NoFaster(r, asks, fastest)
    requires forall i | 0 <= i < |asks| :: asks[i].c.move <= end
    ensures var z := After(r, asks);
            && z.quota.refill <= fastest
            && r.last <= z.last <= Later(r.last, end)
            && z.tokens as real + 1000.0 * Spends(r, asks) as real <= r.tokens as real + (z.last - r.last) * fastest as real
  {
    hide After, Spends, Step, Spent, GoodRow, GoodQuota;
    LastStep(r, asks);
    if asks == [] {
      Nothing(fastest as real);
    } else {
      var n := |asks| - 1;
      RefillPays(r, asks[..n], fastest, end);
      var y, z := After(r, asks[..n]), After(r, asks);
      SpendStep(y, asks[n], fastest);
      StepQuota(y, asks[n], fastest);
      AddTimes(r.last, y.last, z.last, fastest as real);
      OneMore(Spends(r, asks[..n]), Spent(y, asks[n]));
    }
  }

  lemma LastStep(r: Row, asks: seq<Ask>)
    requires GoodRow(r) && GoodAsks(asks)
    ensures if asks == [] then After(r, asks) == r && Spends(r, asks) == 0
            else
              var y := After(r, asks[..|asks| - 1]);
              && After(r, asks) == Step(y, asks[|asks| - 1])
              && Spends(r, asks) == Spends(r, asks[..|asks| - 1]) + if Spent(y, asks[|asks| - 1]) then 1 else 0
  {
  }

  lemma AddTimes(a: real, b: real, c: real, k: real)
    ensures (c - a) * k == (c - b) * k + (b - a) * k
  {
    ScaleSum(c - b, b - a, k);
    assert (c - b) + (b - a) == c - a;
  }

  lemma OneMore(n: nat, more: bool)
    ensures 1000.0 * (n + if more then 1 else 0) as real == 1000.0 * n as real + if more then 1000.0 else 0.0
  {
  }

  lemma StepQuota(r: Row, a: Ask, fastest: int)
    requires GoodRow(r) && GoodAsk(a) && r.quota.refill <= fastest && a.quota.refill <= fastest
    ensures Step(r, a).quota.refill <= fastest
  {
  }

  /** Safety of the tokens. Take a row with less than one milli-token unclaimed at `start`. However many calls
      of whatever quotas follow, at readings up to `end`: 1000 milli-tokens per spend stay below the balance
      plus the fastest rate times the window, plus one. */
  lemma NeverAboveQuota(r: Row, asks: seq<Ask>, fastest: int, start: real, end: real)
    requires GoodRow(r) && GoodAsks(asks) && EachInOrder(asks) && NoFaster(r, asks, fastest)
    requires (start - r.last) * fastest as real < 1.0 && start <= end
    requires forall i | 0 <= i < |asks| :: asks[i].c.move <= end
    ensures 1000.0 * Spends(r, asks) as real < r.tokens as real + (end - start) * fastest as real + 1.0
  {
    hide After, Spends, GoodRow, GoodQuota;
    RateIsPositive(r);
    RefillPays(r, asks, fastest, end);
    var z := After(r, asks);
    RateIsPositive(z);
    MoveWithin(r.last, z.last, start, end, fastest);
    SpentBelow(Spends(r, asks), z.tokens, r.tokens as real, (z.last - r.last) * fastest as real, (end - start) * fastest as real + 1.0);
  }

  lemma SpentBelow(spends: nat, left: int, tokens: real, paid: real, bound: real)
    requires left >= 0 && left as real + 1000.0 * spends as real <= tokens + paid && paid < bound
    ensures 1000.0 * spends as real < tokens + bound
  {
  }

  /** A refill time that starts less than one milli-token before `start` moves by less than the window plus
      one. */
  lemma MoveWithin(last: real, moved: real, start: real, end: real, rate: int)
    requires rate > 0 && start <= end && last <= moved <= Later(last, end)
    requires (start - last) * rate as real < 1.0
    ensures (moved - last) * rate as real < (end - start) * rate as real + 1.0
  {
    AddTimes(last, start, end, rate as real);
    ScaleOrder(0.0, end - start, rate as real);
    if end >= last {
      ScaleOrder(moved - last, end - last, rate as real);
    } else {
      assert moved - last == 0.0;
      Nothing(rate as real);
    }
  }

  /** Every call that is let through took a token or is a free grant. */
  lemma {:induction false} GrantsSplit(r: Row, asks: seq<Ask>)
    requires GoodRow(r) && GoodAsks(asks) && EachInOrder(asks)
    ensures Grants(r, asks) == Spends(r, asks) + FreeGrants(r, asks)
  {
    hide After, Step, Granted, Spent, Commits;
    if asks != [] {
      var n := |asks| - 1;
      GrantsSplit(r, asks[..n]);
      FailsIff(After(r, asks[..n]), asks[n]);
    }
  }

  // ------------------------------------------------------------------ free grants

  /** Whole milli-tokens of time from `origin` to `t`. */
  function Tick(origin: real, rate: int, t: real): int {
    ((t - origin) * rate as real).Floor
  }

  lemma TickGrows(origin: real, rate: int, s: real, t: real)
    requires rate > 0 && s <= t
    ensures Tick(origin, rate, s) <= Tick(origin, rate, t)
  {
    ScaleOrder(s - origin, t - origin, rate as real);
  }

  /** Under one quota the refill time stays on the grid of whole milli-tokens from where it started. */
  lemma {:induction false} StaysOnGrid(r: Row, asks: seq<Ask>) returns (m: nat)
    requires GoodRow(r) && GoodAsks(asks) && NoneNewer(r, asks)
    ensures After(r, asks).quota == r.quota
    ensures (After(r, asks).last - r.last) * r.quota.refill as real == m as real
  {
    hide Step, Spent, Granted, Commits, Earned, GoodRow, GoodQuota;
    m := 0;
    if asks != [] {
      var n := |asks| - 1;
      m := StaysOnGrid(r, asks[..n]);
      var rate := r.quota.refill;
      var y, z := After(r, asks[..n]), After(r, asks);
      StepFacts(y, asks[n]);
      MoveIsExact(y, rate, asks[n].c.move);
      AddTimes(r.last, y.last, z.last, rate as real);
      if z.last != y.last {
        assert z.last - y.last == Earned(y, rate, asks[n].c.move) as real / rate as real;
        m := m + Earned(y, rate, asks[n].c.move);
      } else {
        assert (z.last - y.last) * rate as real == 0.0;
      }
    }
  }

  ghost predicate NoneNewer(r: Row, asks: seq<Ask>) {
    forall i | 0 <= i < |asks| :: asks[i].quota.effectiveFrom <= r.quota.effectiveFrom
  }

  lemma EarnedIsTicks(y: Row, origin: real, rate: int, m: nat, t: real)
    requires rate > 0 && (y.last - origin) * rate as real == m as real
    ensures var k := Tick(origin, rate, t) - m; Earned(y, rate, t) == if k > 0 then k else 0
  {
    ScaleSum(t - origin, y.last - origin, rate as real);
    assert (t - origin) - (y.last - origin) == t - y.last;
    ScaleOrder(t, y.last, rate as real);
    ScaleOrder(t - y.last, 0.0, rate as real);
  }

  /** No statement starts before the one before it has read its last clock. */
  ghost predicate ForwardClock(asks: seq<Ask>) {
    EachInOrder(asks) && forall i | 0 < i < |asks| :: asks[i - 1].c.grant <= asks[i].c.balance
  }

  /** Under one quota and a clock that runs forward, every free grant straddles its own milli-token of time:
      there are no more of them than milli-tokens the window earns. */
  lemma {:induction false} FreeGrantsAreTicks(r: Row, asks: seq<Ask>)
    requires GoodRow(r) && GoodAsks(asks) && NoneNewer(r, asks) && ForwardClock(asks) && asks != []
    ensures var k := Tick(r.last, r.quota.refill, asks[|asks| - 1].c.grant); FreeGrants(r, asks) <= if k > 0 then k else 0
  {
    hide After, Tick, Earned, Step, Granted, Spent, GoodRow, GoodQuota;
    var n, rate := |asks| - 1, r.quota.refill;
    RateIsPositive(r);
    var y, c := After(r, asks[..n]), asks[n].c;
    var m := StaysOnGrid(r, asks[..n]);
    EarnedIsTicks(y, r.last, rate, m, c.spend);
    EarnedIsTicks(y, r.last, rate, m, c.grant);
    TickGrows(r.last, rate, c.spend, c.grant);
    if Granted(y, asks[n]) && !Spent(y, asks[n]) {
      FreeStraddles(y, asks[n]);
    }
    if n > 0 {
      FreeGrantsAreTicks(r, asks[..n]);
      TickGrows(r.last, rate, asks[n - 1].c.grant, c.spend);
    }
  }

  lemma RateIsPositive(r: Row)
    requires GoodRow(r)
    ensures r.quota.refill > 0 && 0 <= r.tokens <= r.quota.burst
  {
  }

  lemma FreeStraddles(r: Row, a: Ask)
    requires GoodRow(r) && GoodAsk(a) && a.quota.effectiveFrom <= r.quota.effectiveFrom
    requires Granted(r, a) && !Spent(r, a)
    ensures Earned(r, r.quota.refill, a.c.spend) < Earned(r, r.quota.refill, a.c.grant)
  {
  }

  /** The shared quota, for the statement as written. In a window of one quota that starts with less than one
      milli-token unclaimed, under a clock that runs forward: calls let through beyond the free grants take
      1000 milli-tokens each of burst plus refill times the window plus one; the free grants number no more
      than the milli-tokens of that time. A run of steady statements has none. */
  lemma SharedQuotaHolds(r: Row, asks: seq<Ask>, start: real, end: real)
    requires GoodRow(r) && GoodAsks(asks) && NoneNewer(r, asks) && ForwardClock(asks)
    requires (start - r.last) * r.quota.refill as real < 1.0 && start <= end
    requires forall i | 0 <= i < |asks| :: asks[i].c.grant <= end
    ensures var earns := (end - start) * r.quota.refill as real;
            && 1000.0 * (Grants(r, asks) - FreeGrants(r, asks)) as real < r.quota.burst as real + earns + 1.0
            && (FreeGrants(r, asks) as real) < earns + 1.0
    ensures (forall i | 0 <= i < |asks| :: Steady(After(r, asks[..i]), asks[i])) ==> FreeGrants(r, asks) == 0
  {
    hide Grants, Spends, FreeGrants, After, Steady, GoodRow, GoodQuota;
    GrantsSplit(r, asks);
    SpendsOfOneQuota(r, asks, start, end);
    FreeOfOneQuota(r, asks, start, end);
    if forall i | 0 <= i < |asks| :: Steady(After(r, asks[..i]), asks[i]) {
      SteadyRun(r, asks);
    }
  }

  lemma FreeOfOneQuota(r: Row, asks: seq<Ask>, start: real, end: real)
    requires GoodRow(r) && GoodAsks(asks) && NoneNewer(r, asks) && ForwardClock(asks)
    requires (start - r.last) * r.quota.refill as real < 1.0 && start <= end
    requires forall i | 0 <= i < |asks| :: asks[i].c.grant <= end
    ensures (FreeGrants(r, asks) as real) < (end - start) * r.quota.refill as real + 1.0
  {
    hide *;
    RateIsPositive(r);
    TickWithin(r.last, start, end, r.quota.refill);
    var k := LastTick(r, asks, end);
    Below(FreeGrants(r, asks), k, (end - start) * r.quota.refill as real + 1.0);
  }

  lemma LastTick(r: Row, asks: seq<Ask>, end: real) returns (k: int)
    requires GoodRow(r) && GoodAsks(asks) && NoneNewer(r, asks) && ForwardClock(asks)
    requires forall i | 0 <= i < |asks| :: asks[i].c.grant <= end
    ensures FreeGrants(r, asks) <= (if k > 0 then k else 0) && k <= Tick(r.last, r.quota.refill, end)
  {
    hide After, Granted, Spent, GoodRow, GoodQuota, Tick;
    RateIsPositive(r);
    k := Tick(r.last, r.quota.refill, end);
    if asks != [] {
      FreeGrantsAreTicks(r, asks);
      TickGrows(r.last, r.quota.refill, asks[|asks| - 1].c.grant, end);
    }
  }

  lemma Below(n: int, k: int, bound: real)
    requires n <= (if k > 0 then k else 0) && k as real < bound && 0.0 < bound
    ensures n as real < bound
  {
  }

  lemma TickWithin(last: real, start: real, end: real, rate: int)
    requires rate > 0 && start <= end && (start - last) * rate as real < 1.0
    ensures Tick(last, rate, end) as real < (end - start) * rate as real + 1.0
    ensures 0.0 < (end - start) * rate as real + 1.0
  {
    AddTimes(last, start, end, rate as real);
    ScaleOrder(0.0, end - start, rate as real);
  }

  lemma SpendsOfOneQuota(r: Row, asks: seq<Ask>, start: real, end: real)
    requires GoodRow(r) && GoodAsks(asks) && NoneNewer(r, asks) && ForwardClock(asks)
    requires (start - r.last) * r.quota.refill as real < 1.0 && start <= end
    requires forall i | 0 <= i < |asks| :: asks[i].c.grant <= end
    ensures 1000.0 * Spends(r, asks) as real < r.quota.burst as real + (end - start) * r.quota.refill as real + 1.0
  {
    hide After, Spends, GoodRow, GoodQuota;
    RateIsPositive(r);
    var same := seq(|asks|, i requires 0 <= i < |asks| => asks[i].(quota := r.quota));
    SameRun(r, asks, same);
    NeverAboveQuota(r, same, r.quota.refill, start, end);
  }

  /** A quota that is not newer than the row's plays no part. */
  lemma {:induction false} SameRun(r: Row, asks: seq<Ask>, same: seq<Ask>)
    requires GoodRow(r) && GoodAsks(asks) && NoneNewer(r, asks)
    requires |same| == |asks| && forall i | 0 <= i < |asks| :: same[i] == asks[i].(quota := r.quota)
    ensures GoodAsks(same) && After(r, same) == After(r, asks) && After(r, asks).quota == r.quota
    ensures Spends(r, same) == Spends(r, asks)
  {
    GoodSame(r, asks, same);
    hide GoodRow, GoodQuota;
    if asks != [] {
      var n := |asks| - 1;
      SameRun(r, asks[..n], same[..n]);
    }
  }

  lemma GoodSame(r: Row, asks: seq<Ask>, same: seq<Ask>)
    requires GoodRow(r) && GoodAsks(asks)
    requires |same| == |asks| && forall i | 0 <= i < |asks| :: same[i] == asks[i].(quota := r.quota)
    ensures GoodAsks(same)
  {
  }

  // ------------------------------------------------------------------ runs of steady statements

  /** The run with each statement's first reading alone. */
  ghost function FirstReadings(asks: seq<Ask>): (s: seq<Ask>)
    ensures |s| == |asks| && (GoodAsks(asks) ==> GoodAsks(s))
  {
    seq(|asks|, i requires 0 <= i < |asks| => Ask(asks[i].quota, At(asks[i].c.balance)))
  }

  /** A run of steady statements is the run of its first readings, and every grant in it is a spend. */
  lemma {:induction false} SteadyRun(r: Row, asks: seq<Ask>)
    requires GoodRow(r) && GoodAsks(asks) && forall i | 0 <= i < |asks| :: Steady(After(r, asks[..i]), asks[i])
    ensures After(r, asks) == After(r, FirstReadings(asks)) && Grants(r, asks) == Grants(r, FirstReadings(asks))
    ensures FreeGrants(r, asks) == 0
  {
    hide Steady, Update;
    if asks != [] {
      var n := |asks| - 1;
      forall i | 0 <= i < n ensures Steady(After(r, asks[..n][..i]), asks[..n][i]) {
        assert asks[..n][..i] == asks[..i];
      }
      SteadyRun(r, asks[..n]);
      assert FirstReadings(asks)[..n] == FirstReadings(asks[..n]);
      SteadyIsOneReading(After(r, asks[..n]), asks[n]);
      OneReadingIsExact(After(r, asks[..n]), asks[n].quota, asks[n].c.balance);
    }
  }

  // ------------------------------------------------------------------ what straddling statements lose

  /** One token, refilled at one token a second. */
  const ONE_A_SECOND := Quota(1000, 1000, 0)

  /** `n` statements in as many milliseconds, the `i`-th reading its balance and its spend at millisecond i and
      the rest at millisecond i + 1. */
  ghost function Straddling(n: nat): (s: seq<Ask>)
    ensures GoodAsks(s)
  {
    seq(n, i requires 0 <= i < n => Straddler(i))
  }

  function Straddler(i: nat): Ask {
    var t, u := i as real / 1000.0, (i + 1) as real / 1000.0;
    Ask(ONE_A_SECOND, Readings(t, t, u, u, u))
  }

  lemma StraddlersForward(n: nat)
    ensures ForwardClock(Straddling(n))
  {
  }

  lemma StraddleStep(i: nat, tokens: nat)
    requires tokens < 1000
    ensures var r := Row(tokens, ONE_A_SECOND, i as real / 1000.0);
            && Step(r, Straddler(i)) == Row(tokens, ONE_A_SECOND, (i + 1) as real / 1000.0)
            && !Spent(r, Straddler(i)) && (Granted(r, Straddler(i)) <==> tokens == 999)
  {
  }

  /** A clock that runs forward does not save the count of calls: statements that straddle a milli-token lose
      it, so a balance of 999 grants every call and spends nothing, and any lower one refuses every call,
      however long it takes. */
  lemma {:induction false} StraddlingNeverPays(n: nat, tokens: nat)
    requires tokens < 1000
    ensures GoodRow(Row(tokens, ONE_A_SECOND, 0.0)) && ForwardClock(Straddling(n))
    ensures var r := Row(tokens, ONE_A_SECOND, 0.0);
            && After(r, Straddling(n)) == Row(tokens, ONE_A_SECOND, n as real / 1000.0)
            && Spends(r, Straddling(n)) == 0
            && Grants(r, Straddling(n)) == if tokens == 999 then n else 0
  {
    hide Step, Spent, Granted, Straddler, ForwardClock;
    StraddlersForward(n);
    if n != 0 {
      StraddlingNeverPays(n - 1, tokens);
      assert Straddling(n)[..n - 1] == Straddling(n - 1);
      StraddleStep(n - 1, tokens);
    }
  }

  /** With clocks that step back there is no bound in the window at all: `n` free grants at one moment. */
  lemma {:induction false} FreeGrantsUnbounded(n: nat)
    ensures var a := Ask(ONE_A_SECOND, Readings(0.0, 0.0, 0.0, 0.0, 0.001));
            var r, asks := Row(999, ONE_A_SECOND, 0.0), seq(n, i => a);
            GoodRow(r) && GoodAsks(asks) && EachInOrder(asks) && After(r, asks) == r && FreeGrants(r, asks) == n
  {
    var a := Ask(ONE_A_SECOND, Readings(0.0, 0.0, 0.0, 0.0, 0.001));
    if n != 0 {
      FreeGrantsUnbounded(n - 1);
      assert seq(n, i => a)[..n - 1] == seq(n - 1, i => a);
    }
  }

  /** With a clock that steps back inside a statement even the spends have no bound: the balance is credited
      with a second that the refill time never claims. */
  lemma {:induction false} SpendsUnbounded(n: nat)
    ensures var a := Ask(ONE_A_SECOND, Readings(1.0, 1.0, 0.0, 0.0, 0.0));
            var r, asks := Row(0, ONE_A_SECOND, 0.0), seq(n, i => a);
            GoodRow(r) && GoodAsks(asks) && After(r, asks) == r && Spends(r, asks) == n
  {
    var a := Ask(ONE_A_SECOND, Readings(1.0, 1.0, 0.0, 0.0, 0.0));
    if n != 0 {
      SpendsUnbounded(n - 1);
      assert seq(n, i => a)[..n - 1] == seq(n - 1, i => a);
    }
  }

  // ------------------------------------------------------------------ the fixed-quota bucket

  /** Time in milli-tokens: with a fixed rate, a reading t earns as the number t * rate. */
  function Scaled(t: real, rate: int): real { t * rate as real }

  datatype Bucket = Bucket(tokens: int, last: real)

  /** One call under a fixed quota, in scaled time. */
  function Call(b: Bucket, burst: int, now: real): (Bucket, bool) {
    var f := if now <= b.last then 0 else (now - b.last).Floor;
    var level := AtMost(b.tokens + f, burst);
    (Bucket(if level >= 1000 then level - 1000 else level, b.last + f as real), level >= 1000)
  }

  lemma ScaleDiv(n: int, rate: int)
    requires rate > 0
    ensures (n as real / rate as real) * rate as real == n as real
  {
  }

  lemma Nothing(k: real)
    ensures 0.0 * k == 0.0
  {
  }

  lemma ScaleSum(x: real, y: real, k: real)
    ensures (x + y) * k == x * k + y * k
    ensures (x - y) * k == x * k - y * k
  {
  }

  lemma ScaleOrder(x: real, y: real, k: real)
    requires k > 0.0
    ensures x <= y <==> x * k <= y * k
  {
  }

  /** The statement with one reading and an unchanged quota is Call, in scaled time. */
  lemma UpdateIsCall(r: Row, q: Quota, t: real)
    requires GoodRow(r) && GoodQuota(q) && q.effectiveFrom <= r.quota.effectiveFrom
    ensures var rate := r.quota.refill;
            var (b, granted) := Call(Bucket(r.tokens, Scaled(r.last, rate)), r.quota.burst, Scaled(t, rate));
            var u := Update(r, q, At(t));
            u.granted == granted && u.row.quota == r.quota && b == Bucket(u.row.tokens, Scaled(u.row.last, rate))
  {
    var rate := r.quota.refill;
    EarnedScaled(r, rate, t);
    var f := Earned(r, rate, t);
    ScaleDiv(f, rate);
    ScaleSum(r.last, f as real / rate as real, rate as real);
    hide Earned;
  }

  lemma EarnedScaled(r: Row, rate: int, t: real)
    requires rate > 0
    ensures Earned(r, rate, t)
            == if Scaled(t, rate) <= Scaled(r.last, rate) then 0 else (Scaled(t, rate) - Scaled(r.last, rate)).Floor
  {
    ScaleSum(t, r.last, rate as real);
    ScaleOrder(t, r.last, rate as real);
  }

  function Calls(b: Bucket, burst: int, ts: seq<real>): Bucket {
    if ts == [] then b else Call(Calls(b, burst, ts[..|ts| - 1]), burst, ts[|ts| - 1]).0
  }

  function CallGrants(b: Bucket, burst: int, ts: seq<real>): nat {
    if ts == [] then 0
    else
      CallGrants(b, burst, ts[..|ts| - 1])
      + if Call(Calls(b, burst, ts[..|ts| - 1]), burst, ts[|ts| - 1]).1 then 1 else 0
  }

  /** The state a call leaves always has less than one milli-token unclaimed. */
  lemma LessThanOneUnclaimed(b: Bucket, burst: int, now: real)
    ensures var (z, _) := Call(b, burst, now); now - z.last < 1.0 && (now >= b.last ==> z.last <= now)
  {
  }

  predicate Ascending(ts: seq<real>) {
    forall i, j | 0 <= i < j < |ts| :: ts[i] <= ts[j]
  }

  /** While every call is refused nothing is ever clamped away: the level is exactly what time has paid. */
  lemma {:induction false} RefusalsLoseNothing(b: Bucket, burst: int, ts: seq<real>)
    requires 0 <= b.tokens <= burst && burst >= 1000 && CallGrants(b, burst, ts) == 0
    requires forall i | 0 <= i < |ts| :: b.last <= ts[i]
    requires Ascending(ts)
    ensures var z := Calls(b, burst, ts);
            && z.tokens >= b.tokens && z.last == b.last + (z.tokens - b.tokens) as real
            && (ts != [] ==> z.last <= ts[|ts| - 1])
  {
    if ts != [] {
      var n := |ts| - 1;
      RefusalsLoseNothing(b, burst, ts[..n]);
      var z := Calls(b, burst, ts[..n]);
      assert z.last <= ts[n];
    }
  }

  /** Progress in scaled time: a call at least 1000 milli-tokens of time after an earlier one, with only
      refusals in between, is granted, however many the refusals were. */
  lemma GrantedInTime(b: Bucket, burst: int, earlier: real, refused: seq<real>, due: real)
    requires 0 <= b.tokens <= burst && burst >= 1000 && b.last <= earlier
    requires Ascending(refused) && forall i | 0 <= i < |refused| :: earlier <= refused[i] <= due
    requires var z := Call(b, burst, earlier).0; CallGrants(z, burst, refused) == 0
    requires due - earlier >= 1000.0
    ensures Call(Calls(Call(b, burst, earlier).0, burst, refused), burst, due).1
  {
    var z := Call(b, burst, earlier).0;
    LessThanOneUnclaimed(b, burst, earlier);
    RefusalsLoseNothing(z, burst, refused);
    var y := Calls(z, burst, refused);
    assert due - y.last >= 1000.0 - (y.tokens - z.tokens) as real;
  }

  // ------------------------------------------------------------------ progress, in seconds

  /** Calls under one quota, each at its own single reading. */
  ghost function AsksAt(q: Quota, ts: seq<real>): (s: seq<Ask>)
    ensures |s| == |ts| && (GoodQuota(q) ==> GoodAsks(s))
  {
    seq(|ts|, i requires 0 <= i < |ts| => Ask(q, At(ts[i])))
  }

  function ScaledAll(ts: seq<real>, rate: int): seq<real> {
    seq(|ts|, i requires 0 <= i < |ts| => Scaled(ts[i], rate))
  }

  /** Any run of single-reading calls under one quota is the run of Call in scaled time. */
  lemma {:induction false} AsksAreCalls(r: Row, q: Quota, ts: seq<real>)
    requires GoodRow(r) && GoodQuota(q) && q.effectiveFrom <= r.quota.effectiveFrom
    ensures var rate, z := r.quota.refill, After(r, AsksAt(q, ts));
            var b := Bucket(r.tokens, Scaled(r.last, rate));
            && z.quota == r.quota
            && Calls(b, r.quota.burst, ScaledAll(ts, rate)) == Bucket(z.tokens, Scaled(z.last, rate))
            && CallGrants(b, r.quota.burst, ScaledAll(ts, rate)) == Grants(r, AsksAt(q, ts))
  {
    if ts != [] {
      var n := |ts| - 1;
      AsksAreCalls(r, q, ts[..n]);
      assert ScaledAll(ts, r.quota.refill)[..n] == ScaledAll(ts[..n], r.quota.refill);
      assert AsksAt(q, ts)[..n] == AsksAt(q, ts[..n]);
      UpdateIsCall(After(r, AsksAt(q, ts[..n])), q, ts[n]);
      OneReadingIsExact(After(r, AsksAt(q, ts[..n])), q, ts[n]);
      hide Update, Call;
    }
  }

  lemma RowFacts(r: Row)
    requires GoodRow(r)
    ensures r.quota.refill > 0 && r.quota.burst >= 1000 && 0 <= r.tokens <= r.quota.burst
  {
  }

  lemma ScaledAscending(ts: seq<real>, lo: real, hi: real, rate: int)
    requires rate > 0 && Ascending(ts) && forall i | 0 <= i < |ts| :: lo <= ts[i] <= hi
    ensures |ScaledAll(ts, rate)| == |ts| && Ascending(ScaledAll(ts, rate))
    ensures forall i | 0 <= i < |ts| :: Scaled(lo, rate) <= ScaledAll(ts, rate)[i] <= Scaled(hi, rate)
  {
    hide Scaled;
    forall i | 0 <= i < |ts| ensures Scaled(lo, rate) <= Scaled(ts[i], rate) <= Scaled(hi, rate) {
      ScaledOrder(lo, ts[i], rate);
      ScaledOrder(ts[i], hi, rate);
    }
    forall i, j | 0 <= i < j < |ts| ensures Scaled(ts[i], rate) <= Scaled(ts[j], rate) {
      ScaledOrder(ts[i], ts[j], rate);
    }
  }

  lemma ScaledOrder(x: real, y: real, rate: int)
    requires rate > 0
    ensures x <= y <==> Scaled(x, rate) <= Scaled(y, rate)
  {
    ScaleOrder(x, y, rate as real);
  }

  lemma ScaledDue(earlier: real, due: real, rate: int)
    requires rate > 0 && due - earlier >= 1000.0 / rate as real
    ensures Scaled(due, rate) - Scaled(earlier, rate) >= 1000.0
  {
    ScaleSum(due, earlier, rate as real);
    ScaleDiv(1000, rate);
    ScaleOrder(1000.0 / rate as real, due - earlier, rate as real);
  }

  /** Progress at single readings, in seconds. */
  lemma GrantedAtReadings(r: Row, q: Quota, earlier: real, refused: seq<real>, due: real)
    requires GoodRow(r) && GoodQuota(q) && q.effectiveFrom <= r.quota.effectiveFrom && r.last <= earlier
    requires Ascending(refused) && forall i | 0 <= i < |refused| :: earlier <= refused[i] <= due
    requires Grants(Step(r, Ask(q, At(earlier))), AsksAt(q, refused)) == 0
    requires due - earlier >= 1000.0 / r.quota.refill as real
    ensures Granted(After(Step(r, Ask(q, At(earlier))), AsksAt(q, refused)), Ask(q, At(due)))
  {
    hide *;
    var rate, burst := r.quota.refill, r.quota.burst;
    RowFacts(r);
    ScaledOrder(r.last, earlier, rate);
    ScaledAscending(refused, earlier, due, rate);
    ScaledDue(earlier, due, rate);
    var z := CallOf(r, q, earlier);
    AsksAreCalls(z, q, refused);
    var y := CallOf(After(z, AsksAt(q, refused)), q, due);
    GrantedInTime(Bucket(r.tokens, Scaled(r.last, rate)), burst, Scaled(earlier, rate), ScaledAll(refused, rate), Scaled(due, rate));
  }

  /** A call with one reading, as a step of the run and in scaled time. */
  lemma CallOf(r: Row, q: Quota, t: real) returns (z: Row)
    requires GoodRow(r) && GoodQuota(q) && q.effectiveFrom <= r.quota.effectiveFrom
    ensures z == Step(r, Ask(q, At(t))) && z.quota == r.quota && GoodRow(z)
    ensures var rate := r.quota.refill;
            Call(Bucket(r.tokens, Scaled(r.last, rate)), r.quota.burst, Scaled(t, rate))
            == (Bucket(z.tokens, Scaled(z.last, rate)), Granted(r, Ask(q, At(t))))
  {
    z := Step(r, Ask(q, At(t)));
    UpdateIsCall(r, q, t);
    OneReadingIsExact(r, q, t);
    hide Update, Call;
  }

  /** A steady statement under the row's quota, as a call with one reading. */
  lemma SteadyStep(r: Row, a: Ask)
    requires GoodRow(r) && GoodAsk(a) && Steady(r, a) && a.quota.effectiveFrom <= r.quota.effectiveFrom
    ensures var one := Ask(r.quota, At(a.c.balance));
            Step(r, a) == Step(r, one) && Granted(r, a) == Granted(r, one) && Step(r, a).quota == r.quota
  {
    SteadyIsOneReading(r, a);
    hide Earned;
  }

  ghost predicate EachSteady(r: Row, asks: seq<Ask>)
    requires GoodRow(r) && GoodAsks(asks)
  {
    forall i | 0 <= i < |asks| :: Steady(After(r, asks[..i]), asks[i])
  }

  function Balances(asks: seq<Ask>): seq<real> {
    seq(|asks|, i requires 0 <= i < |asks| => asks[i].c.balance)
  }

  lemma {:induction false} SteadyReadings(r: Row, asks: seq<Ask>)
    requires GoodRow(r) && GoodAsks(asks) && NoneNewer(r, asks) && EachSteady(r, asks)
    ensures After(r, asks) == After(r, AsksAt(r.quota, Balances(asks))) && After(r, asks).quota == r.quota
    ensures Grants(r, asks) == Grants(r, AsksAt(r.quota, Balances(asks)))
  {
    hide Steady, Step, Granted;
    if asks != [] {
      var n := |asks| - 1;
      forall i | 0 <= i < n ensures Steady(After(r, asks[..n][..i]), asks[..n][i]) {
        assert asks[..n][..i] == asks[..i];
      }
      SteadyReadings(r, asks[..n]);
      assert AsksAt(r.quota, Balances(asks))[..n] == AsksAt(r.quota, Balances(asks[..n]));
      SteadyStep(After(r, asks[..n]), asks[n]);
    }
  }

  /** Progress, in seconds, for the statement as written where nothing is earned between its readings. Under a
      clock that does not run back, a call at least the time of one token after an earlier call, with only
      refusals in between, is granted, however many the refusals were. */
  lemma GrantedWhenDue(r: Row, earlier: Ask, refused: seq<Ask>, due: Ask)
    requires GoodRow(r) && GoodAsk(earlier) && GoodAsks(refused) && GoodAsk(due) && NoneNewer(r, [earlier] + refused + [due])
    requires Steady(r, earlier) && EachSteady(Step(r, earlier), refused) && Steady(After(Step(r, earlier), refused), due)
    requires r.last <= earlier.c.balance && Ascending(Balances(refused))
    requires forall i | 0 <= i < |refused| :: earlier.c.balance <= refused[i].c.balance <= due.c.balance
    requires Grants(Step(r, earlier), refused) == 0
    requires due.c.balance - earlier.c.balance >= 1000.0 / r.quota.refill as real
    ensures Granted(After(Step(r, earlier), refused), due)
  {
    hide Steady, Step, Granted, After, Grants, GoodRow, GoodQuota;
    var all := [earlier] + refused + [due];
    assert all[0] == earlier && all[|refused| + 1] == due;
    assert forall i | 0 <= i < |refused| :: all[i + 1] == refused[i];
    var z := Step(r, earlier);
    SteadyStep(r, earlier);
    SteadyReadings(z, refused);
    SteadyStep(After(z, refused), due);
    GoodOwn(r);
    GrantedAtReadings(r, r.quota, earlier.c.balance, Balances(refused), due.c.balance);
  }

  lemma GoodOwn(r: Row)
    requires GoodRow(r)
    ensures GoodQuota(r.quota)
  {
  }
}
