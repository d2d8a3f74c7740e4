/** The scoring engine: thirteen weekly totals in, a tier out. */
module Scoring {
  import opened Common
  import opened Int64
  import Arith
  import Seqs
  import Sorting

  const WEEKS := 13
  const BPS: int := 10_000
  const MAX_SAFE_WEEKLY: int := MAX_INT64 / 10_000
  const HOUR: int := 3_600_000_000_000

  datatype Tier = Tier(code: nat, maxFace: int, minRecharge: int)

  datatype MissingPolicy = RejectMissing | StarterOnMissing | OtherMissing
  datatype SpikeAction = FlagOnly | CapToStarter | OtherAction

  datatype Policy = Policy(
    minTenureDays: int, blockedStatuses: seq<nat>,
    acceptHours: int, degradeHours: int, degradeTierCap: Option<nat>,
    missing: MissingPolicy,
    winsorUpperBps: int, spikeRatioMaxBps: int, minActiveDays: int, spikeAction: SpikeAction,
    tiers: seq<Tier>, starterTier: nat, oneTierUpMax: int)

  datatype Input = Input(
    weekly: seq<int>, tenureDays: int, activeDays90: int, missingFields: bool, shortHistory: bool,
    policy: Policy, status: nat, priorTier: Option<nat>, age: int)

  datatype Reason =
    | FutureDated | StaleRejected | StaleDegraded | Blocked(status: nat) | MissingRejected
    | TenureOk | SpikeDetected | MovementCapped | Downgraded | StaleCapped | RechargeTier(code: nat)
    | MissingStarter | ColdStartTenure | ThinFile | SpikeCapped | BelowLowest | StarterPolicy(code: nat)

  datatype Staleness = NotAssessed | Fresh | Degraded | Rejected

  datatype Decision = Decision(eligible: bool, tierCode: Option<nat>, maxFace: int, reasons: seq<Reason>, staleness: Staleness)

  datatype ScoreError = WrongWeeks | NoTiers | UnsafeWeek(index: nat) | UnknownMissingPolicy | UnknownSpikeAction

  // ------------------------------------------------------------------ order statistics

  function Sorted(v: seq<int>): seq<int> {
    Sorting.Sort(Sorting.IntLe, v)
  }

  lemma IntOrder()
    ensures Sorting.TotalOrder(Sorting.IntLe)
  {
  }

  lemma SortedFacts(v: seq<int>)
    ensures |Sorted(v)| == |v| && multiset(Sorted(v)) == multiset(v)
    ensures forall i, j | 0 <= i < j < |v| :: Sorted(v)[i] <= Sorted(v)[j]
  {
    IntOrder();
    Sorting.SortSorts(Sorting.IntLe, v);
    assert forall i, j | 0 <= i < j < |v| :: Sorting.IntLe(Sorted(v)[i], Sorted(v)[j]);
  }

  /** Nearest rank, rounded up and clamped into the slice. */
  function Rank(bps: int, n: nat): int {
    var r := (bps * n + 9_999) / BPS;
    if r < 1 then 1 else if r > n then n else r
  }

  lemma RankInRange(bps: int, n: nat)
    requires n > 0
    ensures 1 <= Rank(bps, n) <= n
  {
  }

  function PercentileValue(v: seq<int>, bps: int): int
    requires v != []
  {
    SortedFacts(v);
    Sorted(v)[Rank(bps, |v|) - 1]
  }

  /** The lower median. */
  function MedianValue(v: seq<int>): int
    requires v != []
  {
    SortedFacts(v);
    Sorted(v)[(|v| - 1) / 2]
  }

  ghost predicate IsMax(v: seq<int>, m: int) {
    m in v && forall x | x in v :: x <= m
  }

  function MaxOf(v: seq<int>): int
    requires v != []
  {
    SortedFacts(v);
    Sorted(v)[|v| - 1]
  }

  lemma MaxOfIsMax(v: seq<int>, m: int)
    requires v != [] && IsMax(v, m)
    ensures MaxOf(v) == m
  {
    SortedFacts(v);
    var s := Sorted(v);
    assert s[|v| - 1] in multiset(v);
    assert s[|v| - 1] in v && s[|v| - 1] <= m;
    assert m in multiset(s);
    var k :| 0 <= k < |s| && s[k] == m;
    assert k < |v| - 1 ==> s[k] <= s[|v| - 1];
  }

  function Capped(v: seq<int>, cap: int): seq<int> {
    seq(|v|, i requires 0 <= i < |v| => if v[i] > cap then cap else v[i])
  }

  function WinsorTotal(v: seq<int>, cap: int): int {
    Seqs.Sum(Capped(v, cap))
  }

  // ------------------------------------------------------------------ the decision

  predicate Spiky(v: seq<int>, ratioMaxBps: int)
    requires v != []
  {
    if MedianValue(v) > 0 then TruncDiv(MaxOf(v) * BPS, MedianValue(v)) > ratioMaxBps else MaxOf(v) > 0
  }

  function TierIndex(tiers: seq<Tier>, code: nat): Option<nat> {
    if tiers == [] then None
    else
      var rest := TierIndex(tiers[..|tiers| - 1], code);
      if rest.Some? then rest else if tiers[|tiers| - 1].code == code then Some(|tiers| - 1) else None
  }

  /** The last tier whose threshold the total clears. */
  function TargetTier(tiers: seq<Tier>, total: int): Option<nat> {
    if tiers == [] then None
    else if total >= tiers[|tiers| - 1].minRecharge then Some(|tiers| - 1)
    else TargetTier(tiers[..|tiers| - 1], total)
  }

  lemma {:induction false} TierIndexInRange(tiers: seq<Tier>, code: nat)
    ensures TierIndex(tiers, code).Some? ==> TierIndex(tiers, code).value < |tiers| && tiers[TierIndex(tiers, code).value].code == code
    ensures TierIndex(tiers, code).None? <==> forall i | 0 <= i < |tiers| :: tiers[i].code != code
    ensures TierIndex(tiers, code).Some? ==> forall i | 0 <= i < TierIndex(tiers, code).value :: tiers[i].code != code
  {
    if tiers != [] {
      TierIndexInRange(tiers[..|tiers| - 1], code);
    }
  }

  lemma {:induction false} TargetInRange(tiers: seq<Tier>, total: int)
    ensures TargetTier(tiers, total).Some? ==>
              var t := TargetTier(tiers, total).value;
              t < |tiers| && total >= tiers[t].minRecharge && forall i | t < i < |tiers| :: total < tiers[i].minRecharge
    ensures TargetTier(tiers, total).None? ==> forall i | 0 <= i < |tiers| :: total < tiers[i].minRecharge
  {
    if tiers != [] {
      TargetInRange(tiers[..|tiers| - 1], total);
    }
  }

  /** What the policy validator guarantees: a rung to start from, and a way up. */
  ghost predicate GoodPolicy(p: Policy) {
    && TierIndex(p.tiers, p.starterTier).Some?
    && p.oneTierUpMax >= 1
    && 0 < p.winsorUpperBps <= 9_230
  }

  function Starter(p: Policy, d: Decision, why: Reason): Decision
    requires TierIndex(p.tiers, p.starterTier).Some?
  {
    TierIndexInRange(p.tiers, p.starterTier);
    var t := p.tiers[TierIndex(p.tiers, p.starterTier).value];
    d.(eligible := true, tierCode := Some(t.code), maxFace := t.maxFace, reasons := d.reasons + [why, StarterPolicy(t.code)])
  }

  /** The first week outside the range the engine's arithmetic is safe on. */
  function FirstUnsafe(weekly: seq<int>): Option<nat> {
    if weekly == [] then None
    else
      var rest := FirstUnsafe(weekly[..|weekly| - 1]);
      var w := weekly[|weekly| - 1];
      if rest.Some? then rest else if w < 0 || w > MAX_SAFE_WEEKLY then Some(|weekly| - 1) else None
  }

  /** The tier finally granted for a target: at most `oneTierUpMax` above the prior one, and under the cap of
      a degraded cut. */
  function Settle(p: Policy, prior: Option<nat>, degraded: bool, target: nat): (int, seq<Reason>) {
    var up := if prior.Some? && target > prior.value + p.oneTierUpMax then prior.value + p.oneTierUpMax else target as int;
    var r1 := if prior.Some? && target > prior.value + p.oneTierUpMax then [MovementCapped] else [];
    var r2 := if prior.Some? && up < prior.value then [Downgraded] else [];
    var cap := if degraded && p.degradeTierCap.Some? then TierIndex(p.tiers, p.degradeTierCap.value) else None;
    if cap.Some? && up > cap.value then (cap.value as int, r1 + r2 + [StaleCapped]) else (up, r1 + r2)
  }

  lemma SettleInRange(p: Policy, prior: Option<nat>, degraded: bool, target: nat)
    requires p.oneTierUpMax >= 1 && target < |p.tiers|
    ensures var (t, _) := Settle(p, prior, degraded, target);
            && 0 <= t <= target
            && (prior.Some? ==> t <= prior.value + p.oneTierUpMax)
  {
  }

  /** Scoring past the gates: winsorise, look for a spike, assign a tier. */
  function ScoreHistory(input: Input, d: Decision): Result<Decision, ScoreError>
    requires GoodPolicy(input.policy) && input.weekly != []
  {
    var p := input.policy;
    var total := WinsorTotal(input.weekly, PercentileValue(input.weekly, p.winsorUpperBps));
    var spiky := Spiky(input.weekly, p.spikeRatioMaxBps);
    var d1 := if spiky then d.(reasons := d.reasons + [SpikeDetected]) else d;
    if spiky && p.spikeAction == CapToStarter then Ok(Starter(p, d1, SpikeCapped))
    else if spiky && p.spikeAction == OtherAction then Err(UnknownSpikeAction)
    else
      match TargetTier(p.tiers, total)
      case None => Ok(Starter(p, d1, BelowLowest))
      case Some(target) =>
        TargetInRange(p.tiers, total);
        var prior := if input.priorTier.Some? then TierIndex(p.tiers, input.priorTier.value) else None;
        var (t, moved) := Settle(p, prior, d.staleness == Degraded, target);
        SettleInRange(p, prior, d.staleness == Degraded, target);
        Ok(d1.(eligible := true, tierCode := Some(p.tiers[t].code), maxFace := p.tiers[t].maxFace,
               reasons := d1.reasons + moved + [RechargeTier(p.tiers[t].code)]))
  }

  function Score(input: Input): Result<Decision, ScoreError>
    requires GoodPolicy(input.policy)
  {
    var p := input.policy;
    var none := Decision(false, None, 0, [], NotAssessed);
    if |input.weekly| != WEEKS then Err(WrongWeeks)
    else if |p.tiers| == 0 then Err(NoTiers)
    else if FirstUnsafe(input.weekly).Some? then Err(UnsafeWeek(FirstUnsafe(input.weekly).value))
    else if input.age < 0 then Ok(none.(reasons := [FutureDated], staleness := Rejected))
    else if input.age > p.degradeHours * HOUR then Ok(none.(reasons := [StaleRejected], staleness := Rejected))
    else
      var d := if input.age > p.acceptHours * HOUR then none.(reasons := [StaleDegraded], staleness := Degraded)
               else none.(staleness := Fresh);
      if input.status in p.blockedStatuses then Ok(d.(reasons := d.reasons + [Blocked(input.status)]))
      else if input.missingFields then
        match p.missing
        case RejectMissing => Ok(d.(reasons := d.reasons + [MissingRejected]))
        case StarterOnMissing => Ok(Starter(p, d, MissingStarter))
        case OtherMissing => Err(UnknownMissingPolicy)
      else if input.tenureDays < p.minTenureDays then Ok(Starter(p, d, ColdStartTenure))
      else
        var d1 := d.(reasons := d.reasons + [TenureOk]);
        if input.shortHistory || input.activeDays90 < p.minActiveDays then Ok(Starter(p, d1, ThinFile))
        else ScoreHistory(input, d1)
  }

  // ------------------------------------------------------------------ the engine's loops

  method MaxWeek(v: seq<int>) returns (m: int)
    requires v != []
    ensures m == MaxOf(v)
  {
    m := v[0];
    var k := 1;
    while k < |v|
      invariant 1 <= k <= |v| && m in v[..k] && forall i | 0 <= i < k :: v[i] <= m
    {
      if v[k] > m {
        m := v[k];
      }
      k := k + 1;
    }
    MaxOfIsMax(v, m);
  }

  /** The winsorised total; every intermediate sum stays an int64. */
  method Winsorise(v: seq<int>, cap: int) returns (total: int)
    requires |v| == WEEKS && forall i | 0 <= i < |v| :: 0 <= v[i] <= MAX_SAFE_WEEKLY
    requires 0 <= cap <= MAX_SAFE_WEEKLY
    ensures total == WinsorTotal(v, cap) && InRange(total)
  {
    hide Capped, Seqs.Sum;
    total := 0;
    CappedStart(v, cap);
    var k := 0;
    while k < |v|
      invariant 0 <= k <= |v| && k <= |Capped(v, cap)| && total == Seqs.Sum(Capped(v, cap)[..k])
      invariant 0 <= total <= k * MAX_SAFE_WEEKLY
    {
      var w := v[k];
      if w > cap {
        w := cap;
      }
      CappedMore(v, cap, k);
      total := total + w;
      k := k + 1;
    }
  }

  lemma CappedStart(v: seq<int>, cap: int)
    ensures |Capped(v, cap)| == |v| && Seqs.Sum(Capped(v, cap)[..0]) == 0
    ensures Capped(v, cap)[..|v|] == Capped(v, cap)
  {
  }

  lemma CappedMore(v: seq<int>, cap: int, k: nat)
    requires k < |v|
    ensures |Capped(v, cap)| == |v|
    ensures Seqs.Sum(Capped(v, cap)[..k + 1]) == Seqs.Sum(Capped(v, cap)[..k]) + if v[k] > cap then cap else v[k]
  {
    var c := Capped(v, cap);
    assert c[..k + 1] == c[..k] + [c[k]];
    Seqs.SumAppend(c[..k], c[k]);
  }

  method FindTarget(tiers: seq<Tier>, total: int) returns (target: int)
    ensures target == match TargetTier(tiers, total) case None => -1 case Some(t) => t
  {
    target := -1;
    var k := 0;
    while k < |tiers|
      invariant 0 <= k <= |tiers|
      invariant target == match TargetTier(tiers[..k], total) case None => -1 case Some(t) => t
    {
      assert tiers[..k + 1][..k] == tiers[..k];
      if total >= tiers[k].minRecharge {
        target := k;
      }
      k := k + 1;
    }
    assert tiers[..k] == tiers;
  }

  method FindTier(tiers: seq<Tier>, code: nat) returns (index: int)
    ensures index == match TierIndex(tiers, code) case None => -1 case Some(t) => t
  {
    var k := 0;
    while k < |tiers|
      invariant 0 <= k <= |tiers| && TierIndex(tiers[..k], code).None?
    {
      assert tiers[..k + 1][..k] == tiers[..k];
      if tiers[k].code == code {
        FoundStays(tiers, k + 1, code);
        return k;
      }
      k := k + 1;
    }
    assert tiers[..k] == tiers;
    return -1;
  }

  lemma {:induction false} FoundStays(tiers: seq<Tier>, k: nat, code: nat)
    requires k <= |tiers| && TierIndex(tiers[..k], code).Some?
    ensures TierIndex(tiers, code) == TierIndex(tiers[..k], code)
    decreases |tiers| - k
  {
    if k < |tiers| {
      assert tiers[..k + 1][..k] == tiers[..k];
      FoundStays(tiers, k + 1, code);
    } else {
      assert tiers[..k] == tiers;
    }
  }

  /** The engine itself, step by step. */
  method Run(input: Input) returns (r: Result<Decision, ScoreError>)
    requires GoodPolicy(input.policy)
    ensures r == Score(input)
  {
    var p := input.policy;
    if |input.weekly| != WEEKS {
      return Err(WrongWeeks);
    }
    if |p.tiers| == 0 {
      return Err(NoTiers);
    }
    var k := 0;
    while k < |input.weekly|
      invariant 0 <= k <= |input.weekly| && FirstUnsafe(input.weekly[..k]).None?
      invariant forall i | 0 <= i < k :: 0 <= input.weekly[i] <= MAX_SAFE_WEEKLY
    {
      assert input.weekly[..k + 1][..k] == input.weekly[..k];
      if input.weekly[k] < 0 || input.weekly[k] > MAX_SAFE_WEEKLY {
        UnsafeStays(input.weekly, k + 1);
        return Err(UnsafeWeek(k));
      }
      k := k + 1;
    }
    assert input.weekly[..k] == input.weekly;
    var d := Decision(false, None, 0, [], NotAssessed);
    if input.age < 0 {
      return Ok(d.(reasons := [FutureDated], staleness := Rejected));
    }
    if input.age > p.degradeHours * HOUR {
      return Ok(d.(reasons := [StaleRejected], staleness := Rejected));
    } else if input.age > p.acceptHours * HOUR {
      d := d.(reasons := [StaleDegraded], staleness := Degraded);
    } else {
      d := d.(staleness := Fresh);
    }
    k := 0;
    while k < |p.blockedStatuses|
      invariant 0 <= k <= |p.blockedStatuses| && input.status !in p.blockedStatuses[..k]
    {
      if input.status == p.blockedStatuses[k] {
        return Ok(d.(reasons := d.reasons + [Blocked(input.status)]));
      }
      k := k + 1;
    }
    if input.missingFields {
      match p.missing {
        case RejectMissing => return Ok(d.(reasons := d.reasons + [MissingRejected]));
        case StarterOnMissing => return Ok(Starter(p, d, MissingStarter));
        case OtherMissing => return Err(UnknownMissingPolicy);
      }
    }
    if input.tenureDays < p.minTenureDays {
      return Ok(Starter(p, d, ColdStartTenure));
    }
    d := d.(reasons := d.reasons + [TenureOk]);
    if input.shortHistory || input.activeDays90 < p.minActiveDays {
      return Ok(Starter(p, d, ThinFile));
    }
    r := AssignTier(input, d);
  }

  lemma {:induction false} UnsafeStays(weekly: seq<int>, k: nat)
    requires k <= |weekly| && FirstUnsafe(weekly[..k]).Some?
    ensures FirstUnsafe(weekly) == FirstUnsafe(weekly[..k])
    decreases |weekly| - k
  {
    if k < |weekly| {
      assert weekly[..k + 1][..k] == weekly[..k];
      UnsafeStays(weekly, k + 1);
    } else {
      assert weekly[..k] == weekly;
    }
  }

  /** Every value of the sorted slice is a week's. */
  lemma SortedBounds(v: seq<int>, k: nat)
    requires k < |v| && forall i | 0 <= i < |v| :: 0 <= v[i] <= MAX_SAFE_WEEKLY
    ensures |Sorted(v)| == |v| && 0 <= Sorted(v)[k] <= MAX_SAFE_WEEKLY
  {
    SortedFacts(v);
    assert Sorted(v)[k] in multiset(v);
  }

  /** The spike ratio's product stays an int64: the engine-safe range is exactly that bound. */
  lemma RatioIsSafe(w: int)
    ensures 0 <= w ==> (w <= MAX_SAFE_WEEKLY <==> InRange(w * BPS))
  {
  }

  /** The movement constraint and the degraded cap, each recorded as a reason. */
  method Move(p: Policy, priorTier: Option<nat>, degraded: bool, target: nat) returns (t: int, moved: seq<Reason>)
    ensures (t, moved) == Settle(p, if priorTier.Some? then TierIndex(p.tiers, priorTier.value) else None, degraded, target)
  {
    hide TierIndex;
    var prior := -1;
    if priorTier.Some? {
      prior := FindTier(p.tiers, priorTier.value);
    }
    t, moved := target, [];
    if prior >= 0 && t > prior + p.oneTierUpMax {
      t := prior + p.oneTierUpMax;
      moved := moved + [MovementCapped];
    }
    if prior >= 0 && t < prior {
      moved := moved + [Downgraded];
    }
    if degraded && p.degradeTierCap.Some? {
      var capIdx := FindTier(p.tiers, p.degradeTierCap.value);
      if capIdx >= 0 && t > capIdx {
        t := capIdx;
        moved := moved + [StaleCapped];
      }
    }
    ghost var s := Settle(p, if priorTier.Some? then TierIndex(p.tiers, priorTier.value) else None, degraded, target);
    assert moved == s.1;
  }

  method AssignTier(input: Input, d0: Decision) returns (r: Result<Decision, ScoreError>)
    requires GoodPolicy(input.policy) && |input.weekly| == WEEKS
    requires forall i | 0 <= i < |input.weekly| :: 0 <= input.weekly[i] <= MAX_SAFE_WEEKLY
    ensures r == ScoreHistory(input, d0)
  {
    hide Sorted, TierIndex, TargetTier, WinsorTotal, Settle, Rank, TruncDiv;
    var p := input.policy;
    var d := d0;
    SortedFacts(input.weekly);
    RankInRange(p.winsorUpperBps, WEEKS);
    var capValue := PercentileValue(input.weekly, p.winsorUpperBps);
    SortedBounds(input.weekly, Rank(p.winsorUpperBps, WEEKS) - 1);
    var med := MedianValue(input.weekly);
    var maxW := MaxWeek(input.weekly);
    SortedBounds(input.weekly, WEEKS - 1);
    var spiky := false;
    if med > 0 {
      RatioIsSafe(maxW);
      if TruncDiv(maxW * BPS, med) > p.spikeRatioMaxBps {
        spiky := true;
      }
    } else if maxW > 0 {
      spiky := true;
    }
    var total := Winsorise(input.weekly, capValue);
    if spiky {
      d := d.(reasons := d.reasons + [SpikeDetected]);
      match p.spikeAction {
        case FlagOnly =>
        case CapToStarter => return Ok(Starter(p, d, SpikeCapped));
        case OtherAction => return Err(UnknownSpikeAction);
      }
    }
    var target := FindTarget(p.tiers, total);
    if target < 0 {
      return Ok(Starter(p, d, BelowLowest));
    }
    TargetInRange(p.tiers, total);
    TierIndexInRange(p.tiers, if input.priorTier.Some? then input.priorTier.value else 0);
    ghost var prior := if input.priorTier.Some? then TierIndex(p.tiers, input.priorTier.value) else None;
    SettleInRange(p, prior, d.staleness == Degraded, target);
    var settled, moved := Move(p, input.priorTier, d.staleness == Degraded, target);
    target := settled;
    d := d.(reasons := d.reasons + moved);
    var code := p.tiers[target].code;
    d := d.(eligible := true, tierCode := Some(code), maxFace := p.tiers[target].maxFace, reasons := d.reasons + [RechargeTier(code)]);
    return Ok(d);
  }

  // ------------------------------------------------------------------ order of the weeks

  lemma SortedOfPermutation(v: seq<int>, w: seq<int>)
    requires multiset(v) == multiset(w)
    ensures Sorted(v) == Sorted(w)
  {
    IntOrder();
    Sorting.SortOfPermutation(Sorting.IntLe, v, w);
  }

  lemma {:induction false} CappedOfPermutation(v: seq<int>, w: seq<int>, cap: int)
    requires multiset(v) == multiset(w)
    ensures multiset(Capped(v, cap)) == multiset(Capped(w, cap))
    decreases |v|
  {
    assert |v| == |multiset(v)| == |multiset(w)| == |w|;
    if v != [] {
      var k := Seqs.MatchFirst(v, w);
      CappedOfPermutation(Seqs.RemoveAt(v, 0), Seqs.RemoveAt(w, k), cap);
      assert Capped(Seqs.RemoveAt(v, 0), cap) == Seqs.RemoveAt(Capped(v, cap), 0);
      assert Capped(Seqs.RemoveAt(w, k), cap) == Seqs.RemoveAt(Capped(w, cap), k);
      Seqs.RemoveAtMultiset(Capped(v, cap), 0);
      Seqs.RemoveAtMultiset(Capped(w, cap), k);
    }
  }

  lemma {:induction false} FirstUnsafeIs(v: seq<int>)
    ensures FirstUnsafe(v).None? <==> forall i | 0 <= i < |v| :: 0 <= v[i] <= MAX_SAFE_WEEKLY
  {
    if v != [] {
      FirstUnsafeIs(v[..|v| - 1]);
    }
  }

  /** The order of the weeks does not matter: on safe values the whole decision is the same. */
  lemma WeekOrderIrrelevant(x: Input, weekly: seq<int>)
    requires GoodPolicy(x.policy) && multiset(weekly) == multiset(x.weekly)
    requires forall i | 0 <= i < |x.weekly| :: 0 <= x.weekly[i] <= MAX_SAFE_WEEKLY
    ensures Score(x.(weekly := weekly)) == Score(x)
  {
    assert |weekly| == |multiset(weekly)| == |multiset(x.weekly)| == |x.weekly|;
    forall i | 0 <= i < |weekly| ensures 0 <= weekly[i] <= MAX_SAFE_WEEKLY {
      assert weekly[i] in multiset(x.weekly);
    }
    FirstUnsafeIs(weekly);
    FirstUnsafeIs(x.weekly);
    if |weekly| == WEEKS {
      SameHistory(x, weekly);
    }
    hide ScoreHistory, FirstUnsafe, Starter;
  }

  lemma SameHistory(x: Input, weekly: seq<int>)
    requires GoodPolicy(x.policy) && multiset(weekly) == multiset(x.weekly) && |weekly| == |x.weekly| == WEEKS
    ensures forall d: Decision :: ScoreHistory(x.(weekly := weekly), d) == ScoreHistory(x, d)
  {
    SortedOfPermutation(weekly, x.weekly);
    var cap := PercentileValue(x.weekly, x.policy.winsorUpperBps);
    CappedOfPermutation(weekly, x.weekly, cap);
    Seqs.SumOfPermutation(Capped(weekly, cap), Capped(x.weekly, cap));
    hide Sorted, TargetTier, Settle, Starter, Capped, Seqs.Sum;
  }

  // ------------------------------------------------------------------ one big week

  /** A winsor rank below the thirteenth value is exactly what the validator's 9230 bound guarantees. */
  lemma RankBelowMax(bps: int)
    ensures Rank(bps, WEEKS) <= 12 <==> bps <= 9_230
  {
  }

  /** Raising one maximal week only replaces the last value of the sorted slice. */
  lemma RaisedSorted(v: seq<int>, k: nat, y: int)
    requires k < |v| && IsMax(v, v[k]) && y >= v[k]
    ensures |Sorted(v)| == |v| == |Sorted(v[k := y])|
    ensures Sorted(v)[|v| - 1] == v[k]
    ensures Sorted(v[k := y]) == Sorted(v)[|v| - 1 := y]
  {
    hide *;
    SortedFacts(v);
    var n := |v| - 1;
    var s := Sorted(v);
    LastIsMax(v, v[k]);
    var t := s[n := y];
    SwapOne(v, k, y);
    SwapOne(s, n, y);
    assert multiset(t) == multiset(v[k := y]) by {
      Cancel(multiset(t), multiset(v[k := y]), v[k]);
    }
    forall i, j | 0 <= i < j < |t| ensures t[i] <= t[j] {
      assert s[i] <= s[j];
    }
    SortedIs(v[k := y], t);
    assert |v[k := y]| == |v|;
  }

  lemma SwapOne(v: seq<int>, k: nat, y: int)
    requires k < |v|
    ensures multiset(v[k := y]) + multiset{v[k]} == multiset(v) + multiset{y}
  {
  }

  lemma Cancel(a: multiset<int>, b: multiset<int>, x: int)
    requires a + multiset{x} == b + multiset{x}
    ensures a == b
  {
    assert a == a + multiset{x} - multiset{x} && b == b + multiset{x} - multiset{x};
  }

  lemma LastIsMax(v: seq<int>, m: int)
    requires v != [] && IsMax(v, m)
    ensures |Sorted(v)| == |v| && Sorted(v)[|v| - 1] == m
  {
    SortedFacts(v);
    MaxOfIsMax(v, m);
  }

  lemma SortedIs(v: seq<int>, t: seq<int>)
    requires multiset(v) == multiset(t) && forall i, j | 0 <= i < j < |t| :: t[i] <= t[j]
    ensures Sorted(v) == t
  {
    SortedFacts(v);
    IntOrder();
    assert Sorting.SortedBy(Sorting.IntLe, t) && Sorting.SortedBy(Sorting.IntLe, Sorted(v));
    Sorting.SortedUnique(Sorting.IntLe, Sorted(v), t);
  }

  /** With the rank below the maximum, raising a maximal week leaves the cap, the median and the winsorised
      total as they were; with the rank at the maximum, the total grows by the whole raise. */
  lemma OneBigWeek(v: seq<int>, k: nat, y: int, bps: int)
    requires |v| == WEEKS && k < |v| && IsMax(v, v[k]) && y >= v[k]
    ensures MedianValue(v[k := y]) == MedianValue(v)
    ensures bps <= 9_230 ==> PercentileValue(v[k := y], bps) == PercentileValue(v, bps)
    ensures bps <= 9_230 ==>
              WinsorTotal(v[k := y], PercentileValue(v[k := y], bps)) == WinsorTotal(v, PercentileValue(v, bps))
    ensures bps > 9_230 ==>
              WinsorTotal(v[k := y], PercentileValue(v[k := y], bps)) == WinsorTotal(v, PercentileValue(v, bps)) + (y - v[k])
  {
    RaisedSorted(v, k, y);
    RankBelowMax(bps);
    SortedFacts(v);
    var c, c2 := PercentileValue(v, bps), PercentileValue(v[k := y], bps);
    if bps <= 9_230 {
      assert c2 == c <= v[k];
      assert Capped(v[k := y], c) == Capped(v, c);
    } else {
      assert c == v[k] && c2 == y;
      assert forall i | 0 <= i < |v| :: v[i] in v;
      assert Capped(v, c) == v && Capped(v[k := y], c2) == v[k := y];
      Seqs.SumUpdate(v, k, y);
    }
  }

  /** One big week cannot buy a tier: under FLAG_ONLY, raising a maximal week to any safe value changes
      neither the tier nor the face value nor eligibility. */
  lemma BigWeekBuysNothing(x: Input, k: nat, y: int)
    requires GoodPolicy(x.policy) && x.policy.spikeAction == FlagOnly
    requires |x.weekly| == WEEKS && k < WEEKS && IsMax(x.weekly, x.weekly[k]) && x.weekly[k] <= y <= MAX_SAFE_WEEKLY
    requires forall i | 0 <= i < WEEKS :: 0 <= x.weekly[i] <= MAX_SAFE_WEEKLY
    ensures var a, b := Score(x), Score(x.(weekly := x.weekly[k := y]));
            a.Ok? == b.Ok? &&
            (a.Ok? ==> a.value.eligible == b.value.eligible && a.value.tierCode == b.value.tierCode && a.value.maxFace == b.value.maxFace)
  {
    var z := x.(weekly := x.weekly[k := y]);
    OneBigWeek(x.weekly, k, y, x.policy.winsorUpperBps);
    FirstUnsafeIs(x.weekly);
    FirstUnsafeIs(z.weekly);
    forall d: Decision
      ensures var a, b := ScoreHistory(x, d), ScoreHistory(z, d);
              a.Ok? && b.Ok? && a.value.eligible == b.value.eligible && a.value.tierCode == b.value.tierCode && a.value.maxFace == b.value.maxFace
    {
      SameTier(x, z, d);
    }
    hide ScoreHistory, FirstUnsafe, Starter;
  }

  lemma SameTier(x: Input, z: Input, d: Decision)
    requires GoodPolicy(x.policy) && x.policy.spikeAction == FlagOnly && x.weekly != [] && z.weekly != []
    requires z == x.(weekly := z.weekly)
    requires WinsorTotal(z.weekly, PercentileValue(z.weekly, z.policy.winsorUpperBps))
          == WinsorTotal(x.weekly, PercentileValue(x.weekly, x.policy.winsorUpperBps))
    ensures var a, b := ScoreHistory(x, d), ScoreHistory(z, d);
            a.Ok? && b.Ok? && a.value.eligible == b.value.eligible && a.value.tierCode == b.value.tierCode && a.value.maxFace == b.value.maxFace
  {
    hide WinsorTotal, PercentileValue, Spiky, TargetTier, Settle;
  }

  predicate AscendingLadder(tiers: seq<Tier>) {
    forall i, j | 0 <= i < j < |tiers| :: tiers[i].maxFace < tiers[j].maxFace && tiers[i].minRecharge < tiers[j].minRecharge
  }

  lemma CappedFace(x: Input, d: Decision)
    requires GoodPolicy(x.policy) && x.policy.spikeAction == CapToStarter
    requires x.weekly != [] && Spiky(x.weekly, x.policy.spikeRatioMaxBps)
    ensures var r, starter := ScoreHistory(x, d), TierIndex(x.policy.tiers, x.policy.starterTier);
            && starter.Some? && starter.value < |x.policy.tiers|
            && r.Ok? && r.value.maxFace == x.policy.tiers[starter.value].maxFace
  {
    hide WinsorTotal, PercentileValue, Spiky, TargetTier, Settle, TierIndex;
    TierIndexInRange(x.policy.tiers, x.policy.starterTier);
  }

  /** The winsorised total that the ladder's thresholds are held against. */
  function EarnedTotal(x: Input): int
    requires x.weekly != []
  {
    WinsorTotal(x.weekly, PercentileValue(x.weekly, x.policy.winsorUpperBps))
  }

  function PriorRung(x: Input): Option<nat> {
    if x.priorTier.Some? then TierIndex(x.policy.tiers, x.priorTier.value) else None
  }

  /** The rung the totals earn, after the movement step and the degraded cap, when they earn one at all. */
  function EarnedRung(x: Input, degraded: bool): Option<int>
    requires x.weekly != []
  {
    var target := TargetTier(x.policy.tiers, EarnedTotal(x));
    if target.Some? then Some(Settle(x.policy, PriorRung(x), degraded, target.value).0) else None
  }

  /** What the flag alone grants: the earned rung's face value, or the starter's when no threshold is cleared. */
  lemma FlaggedFace(x: Input, d: Decision)
    requires GoodPolicy(x.policy) && x.policy.spikeAction == FlagOnly && x.weekly != []
    ensures var r, e := ScoreHistory(x, d), EarnedRung(x, d.staleness == Degraded);
            var rung := if e.Some? then e.value else TierIndex(x.policy.tiers, x.policy.starterTier).value;
            r.Ok? && 0 <= rung < |x.policy.tiers| && r.value.maxFace == x.policy.tiers[rung].maxFace
  {
    hide WinsorTotal, PercentileValue, Spiky, TargetTier, Settle, TierIndex;
    var p := x.policy;
    TierIndexInRange(p.tiers, p.starterTier);
    var target := TargetTier(p.tiers, EarnedTotal(x));
    TargetInRange(p.tiers, EarnedTotal(x));
    if target.Some? {
      SettleInRange(p, PriorRung(x), d.staleness == Degraded, target.value);
    }
  }

  /** Under CAP_TO_STARTER a spike moves the subscriber to the starter rung, whatever the total says: the face
      value it grants is above the one the flag alone would have left exactly when the totals earn a rung and
      that rung lies below the starter's. The cap is always a penalty when the starter is the lowest rung. */
  lemma SpikeLiftsIff(x: Input, d: Decision)
    requires GoodPolicy(x.policy) && AscendingLadder(x.policy.tiers)
    requires x.policy.spikeAction == CapToStarter && x.weekly != [] && Spiky(x.weekly, x.policy.spikeRatioMaxBps)
    ensures var starter := TierIndex(x.policy.tiers, x.policy.starterTier).value;
            var earned := EarnedRung(x, d.staleness == Degraded);
            var capped := ScoreHistory(x, d);
            var flagged := ScoreHistory(x.(policy := x.policy.(spikeAction := FlagOnly)), d);
            && capped.Ok? && flagged.Ok?
            && (capped.value.maxFace > flagged.value.maxFace <==> earned.Some? && earned.value < starter)
            && (starter == 0 ==> capped.value.maxFace <= flagged.value.maxFace)
  {
    hide ScoreHistory, TierIndex, Spiky, TargetTier;
    var y := x.(policy := x.policy.(spikeAction := FlagOnly));
    CappedFace(x, d);
    FlaggedFace(y, d);
    assert EarnedRung(y, d.staleness == Degraded) == EarnedRung(x, d.staleness == Degraded);
    hide EarnedRung;
  }

  // ------------------------------------------------------------------ a spike that pays

  /** Two rungs, with the upper one the starter's: every clause of the policy validator holds. */
  function UpperStarter(action: SpikeAction): Policy {
    Policy(0, [], 24, 48, None, RejectMissing, 9_230, 30_000, 0, action, [Tier(0, 100, 0), Tier(1, 500, 1_000)], 1, 1)
  }

  /** Twelve silent weeks and one recharge of 50. */
  function OneRecharge(action: SpikeAction): Input {
    Input(seq(WEEKS, i => if i == WEEKS - 1 then 50 else 0), 100, 90, false, false, UpperStarter(action), 0, None, 0)
  }

  lemma {:induction false} SumOfZeros(s: seq<int>)
    requires forall i | 0 <= i < |s| :: s[i] == 0
    ensures Seqs.Sum(s) == 0
  {
    if s != [] {
      SumOfZeros(s[..|s| - 1]);
    }
  }

  lemma OneRechargeHistory(action: SpikeAction)
    ensures var x := OneRecharge(action);
            && FirstUnsafe(x.weekly).None? && Spiky(x.weekly, x.policy.spikeRatioMaxBps) && EarnedTotal(x) == 0
  {
    var v := OneRecharge(action).weekly;
    SortedIs(v, v);
    FirstUnsafeIs(v);
    SortedFacts(v);
    hide Sorted, FirstUnsafe;
    assert PercentileValue(v, 9_230) == 0 && MedianValue(v) == 0 && MaxOf(v) == 50;
    SumOfZeros(Capped(v, 0));
  }

  lemma UpperStarterLadder(action: SpikeAction)
    ensures GoodPolicy(UpperStarter(action)) && AscendingLadder(UpperStarter(action).tiers)
    ensures TierIndex(UpperStarter(action).tiers, 1) == Some(1)
    ensures TargetTier(UpperStarter(action).tiers, 0) == Some(0)
  {
    var t := UpperStarter(action).tiers;
    assert t[..1] == [t[0]] && t[..1][..0] == [];
    assert TierIndex([t[0]], 1).None?;
    assert TargetTier([t[0]], 0) == Some(0);
  }

  /** The penalty pays: one recharge of 50 after twelve silent weeks is granted a face value of 100 where the
      spike is only flagged, and 500 where it is capped to the starter. */
  lemma SpikePays()
    ensures GoodPolicy(UpperStarter(FlagOnly)) && GoodPolicy(UpperStarter(CapToStarter))
    ensures var flagged, capped := Score(OneRecharge(FlagOnly)), Score(OneRecharge(CapToStarter));
            && flagged.Ok? && flagged.value.eligible && flagged.value.maxFace == 100
            && capped.Ok? && capped.value.eligible && capped.value.maxFace == 500
  {
    OneRechargeHistory(FlagOnly);
    OneRechargeHistory(CapToStarter);
    UpperStarterLadder(FlagOnly);
    UpperStarterLadder(CapToStarter);
    hide Spiky, EarnedTotal, TierIndex, TargetTier, FirstUnsafe, WinsorTotal, PercentileValue;
    var d := Decision(false, None, 0, [TenureOk], Fresh);
    FlaggedFace(OneRecharge(FlagOnly), d);
    CappedFace(OneRecharge(CapToStarter), d);
  }

  /** Past the gates, a subscriber whose prior tier is on the ladder never climbs more than the policy's step
      above it, whatever the total; when no threshold is cleared, the decision is the starter's. */
  lemma ClimbIsBounded(x: Input, d: Decision)
    requires GoodPolicy(x.policy) && AscendingLadder(x.policy.tiers) && x.weekly != [] && x.priorTier.Some?
    requires TierIndex(x.policy.tiers, x.priorTier.value).Some?
    requires !Spiky(x.weekly, x.policy.spikeRatioMaxBps) || x.policy.spikeAction == FlagOnly
    ensures var r := ScoreHistory(x, d);
            var starter := TierIndex(x.policy.tiers, x.policy.starterTier).value;
            var limit := TierIndex(x.policy.tiers, x.priorTier.value).value + x.policy.oneTierUpMax;
            && r.Ok? && starter < |x.policy.tiers|
            && if TargetTier(x.policy.tiers, EarnedTotal(x)).None? then r.value.maxFace == x.policy.tiers[starter].maxFace
               else limit >= |x.policy.tiers| || r.value.maxFace <= x.policy.tiers[limit].maxFace
  {
    var p := x.policy;
    TierIndexInRange(p.tiers, p.starterTier);
    var total := EarnedTotal(x);
    TargetInRange(p.tiers, total);
    if TargetTier(p.tiers, total).Some? {
      SettleInRange(p, TierIndex(p.tiers, x.priorTier.value), d.staleness == Degraded, TargetTier(p.tiers, total).value);
    }
    hide WinsorTotal, PercentileValue, Spiky, TargetTier, Settle, TierIndex;
  }
}
