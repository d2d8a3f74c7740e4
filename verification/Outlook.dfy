/** The repayment outlook: how long a subscriber will take to clear a debt, from their own repayments. */
module Outlook {
  import opened Arith
  import opened Common
  import opened Int64
  import opened Seqs
  import Sorting

  /** Times are in nanoseconds. */
  datatype Repayment = Repayment(applied: int, amount: int)

  datatype Status = Cleared | NoHistory | Stalled | Insufficient | Projected

  datatype Outlook = Outlook(status: Status, recovered: int, activeWeeks: int, typicalWeekly: int,
                             optimisticWeeks: int, pessimisticWeeks: int)

  const DAY: int := 24 * 3600 * 1_000_000_000
  const WEEK: int := 7 * DAY
  const WINDOW_DAYS: int := 60
  const MIN_ACTIVE_WEEKS: int := 3

  /** Weeks 0 to 8 meet a window of 60 days. */
  const WEEKS: nat := 9

  // ------------------------------------------------------------------ percentile and division

  predicate Ascending(s: seq<int>) {
    forall i, j | 0 <= i < j < |s| :: s[i] <= s[j]
  }

  /** The nearest-rank percentile of an ascending sequence. */
  function Percentile(s: seq<int>, p: int): int {
    var n := |s|;
    if n == 0 then 0
    else if p <= 0 then s[0]
    else if p >= 100 then s[n - 1]
    else
      var rank := (p * n + 99) / 100;
      var rank1 := if rank < 1 then 1 else rank;
      var rank2 := if rank1 > n then n else rank1;
      s[rank2 - 1]
  }

  function CountAtMost(s: seq<int>, v: int): nat {
    if s == [] then 0 else CountAtMost(s[..|s| - 1], v) + if s[|s| - 1] <= v then 1 else 0
  }

  /** In an ascending sequence the values up to `v` come first. */
  lemma {:induction false} CountOfPrefix(s: seq<int>, v: int, k: nat)
    requires Ascending(s) && k <= |s|
    requires forall i | 0 <= i < k :: s[i] <= v
    requires k < |s| ==> s[k] > v
    ensures CountAtMost(s, v) == k
  {
    if s != [] {
      var n := |s| - 1;
      if k <= n {
        assert s[k] <= s[n];
        CountOfPrefix(s[..n], v, k);
      } else {
        CountOfPrefix(s[..n], v, n);
      }
    }
  }

  lemma {:induction false} CountBounds(s: seq<int>, v: int, r: nat)
    requires Ascending(s) && r < |s|
    ensures s[r] <= v ==> CountAtMost(s, v) >= r + 1
    ensures s[r] > v ==> CountAtMost(s, v) <= r
  {
    var k := |s|;
    while k > 0 && s[k - 1] > v
      invariant 0 <= k <= |s|
      invariant forall i | k <= i < |s| :: s[i] > v
    {
      k := k - 1;
    }
    CountOfPrefix(s, v, k);
  }

  /** The nearest rank: at least p% of the values are at most the percentile, and less than p% are below it. */
  lemma PercentileIsNearestRank(s: seq<int>, p: int)
    requires s != [] && Ascending(s) && 0 < p < 100
    ensures var v := Percentile(s, p);
            && v in s
            && 100 * CountAtMost(s, v) >= p * |s|
            && 100 * CountAtMost(s, v - 1) < p * |s|
  {
    var n := |s|;
    var rank := (p * n + 99) / 100;
    assert 1 <= rank <= n by {
      RankInRange(p, n);
    }
    var v := s[rank - 1];
    CountBounds(s, v, rank - 1);
    CountBounds(s, v - 1, rank - 1);
  }

  lemma RankInRange(p: int, n: nat)
    requires 0 < p < 100 && n > 0
    ensures 1 <= (p * n + 99) / 100 <= n
  {
    MulMono(1, p, n);
    MulMono(p, 99, n);
  }

  lemma PercentileMonotone(s: seq<int>, p: int, q: int)
    requires s != [] && Ascending(s) && 0 < p <= q < 100
    ensures Percentile(s, p) <= Percentile(s, q)
  {
    RankInRange(p, |s|);
    RankInRange(q, |s|);
    MulMono(p, q, |s|);
  }

  /** Division rounding up, over int64: 0 for a non-positive divisor. */
  function CeilDiv(a: int, b: int): int {
    if b <= 0 then 0 else TruncDiv(Wrap(a + b - 1), b)
  }

  /** Without overflow it is the least number of steps of `b` that reach `a`. */
  lemma CeilDivIsLeast(a: int, b: int)
    requires a >= 1 && b >= 1 && a + b - 1 <= MAX_INT64
    ensures var w := CeilDiv(a, b); 1 <= w <= a && w * b >= a && (w - 1) * b < a
  {
    var w := (a + b - 1) / b;
    DivMod(a + b - 1, b);
    Distribute(w, 1, b);
    if w < 1 {
      MulMono(w, 0, b);
    }
    if w > a {
      MulMono(a + 1, w, b);
      MulMono(1, b, a);
      Distribute(a, 1, b);
    }
  }

  lemma CeilDivMonotone(a: int, c: int, b: int)
    requires 1 <= a <= c && b >= 1 && c + b - 1 <= MAX_INT64
    ensures CeilDiv(a, b) <= CeilDiv(c, b)
  {
    CeilDivIsLeast(a, b);
    CeilDivIsLeast(c, b);
    MulCancel(CeilDiv(a, b) - 1, CeilDiv(c, b), b);
  }

  lemma CeilDivAntitone(a: int, b: int, d: int)
    requires a >= 1 && 1 <= b <= d && a + d - 1 <= MAX_INT64
    ensures CeilDiv(a, d) <= CeilDiv(a, b)
  {
    CeilDivIsLeast(a, b);
    CeilDivIsLeast(a, d);
    var w := CeilDiv(a, b);
    MulMono(b, d, w);
    MulCancel(CeilDiv(a, d) - 1, w, d);
  }

  /** Repayment weeks to calendar weeks at the paying cadence, never fewer. */
  function CalendarWeeks(paying: int, spanDays: int, active: int): int {
    if paying <= 0 || active <= 0 then paying
    else
      var cal := CeilDiv(Wrap(paying * spanDays), Wrap(7 * active));
      if cal < paying then paying else cal
  }

  // ------------------------------------------------------------------ the windowed sums

  predicate InWindow(r: Repayment, asOf: int) {
    r.applied > asOf - WINDOW_DAYS * DAY
  }

  /** Whole weeks before `asOf`; a row from the future counts as this week. */
  function WeekOf(r: Repayment, asOf: int): (w: nat) {
    var wk := TruncDiv(asOf - r.applied, WEEK);
    if wk < 0 then 0 else wk
  }

  /** The row counts: in the window, and in week `w` if one is given. */
  predicate Counts(r: Repayment, asOf: int, w: Option<nat>) {
    InWindow(r, asOf) && (w.Some? ==> WeekOf(r, asOf) == w.value)
  }

  function Total(rs: seq<Repayment>, asOf: int, w: Option<nat>): int {
    if rs == [] then 0
    else Total(rs[..|rs| - 1], asOf, w) + if Counts(rs[|rs| - 1], asOf, w) then rs[|rs| - 1].amount else 0
  }

  /** The earliest row in the window. */
  function Earliest(rs: seq<Repayment>, asOf: int): Option<int> {
    if rs == [] then None
    else
      var e, r := Earliest(rs[..|rs| - 1], asOf), rs[|rs| - 1];
      if !InWindow(r, asOf) then e
      else if e.None? || r.applied < e.value then Some(r.applied)
      else e
  }

  /** The int64 sums of weeks 0 to n-1. */
  function WeekSums(rs: seq<Repayment>, asOf: int, n: nat): seq<int> {
    seq(n, w requires 0 <= w < n => Wrap(Total(rs, asOf, Some(w))))
  }

  function Positives(s: seq<int>): seq<int> {
    if s == [] then []
    else if s[|s| - 1] > 0 then Positives(s[..|s| - 1]) + [s[|s| - 1]]
    else Positives(s[..|s| - 1])
  }

  /** The sums of the weeks with a positive sum, ascending. */
  function Weekly(rs: seq<Repayment>, asOf: int): seq<int> {
    Sorting.Sort(Sorting.IntLe, Positives(WeekSums(rs, asOf, WEEKS)))
  }

  function SpanDays(rs: seq<Repayment>, asOf: int): int {
    var e := Earliest(rs, asOf);
    var d := if e.None? then 0 else TruncDiv(asOf - e.value, DAY);
    if d < 7 then 7 else d
  }

  function OutlookOf(owed: int, rs: seq<Repayment>, asOf: int): Outlook {
    if owed <= 0 then Outlook(Cleared, 0, 0, 0, 0, 0)
    else if rs == [] then Outlook(NoHistory, 0, 0, 0, 0, 0)
    else
      var recovered := Wrap(Total(rs, asOf, None));
      var weekly := Weekly(rs, asOf);
      if recovered == 0 then Outlook(Stalled, 0, 0, 0, 0, 0)
      else if |weekly| < MIN_ACTIVE_WEEKS then Outlook(Insufficient, recovered, |weekly|, 0, 0, 0)
      else
        var span := SpanDays(rs, asOf);
        Outlook(Projected, recovered, |weekly|, Percentile(weekly, 50),
                CalendarWeeks(CeilDiv(owed, Percentile(weekly, 75)), span, |weekly|),
                CalendarWeeks(CeilDiv(owed, Percentile(weekly, 25)), span, |weekly|))
  }

  lemma WeekInRange(r: Repayment, asOf: int)
    requires InWindow(r, asOf)
    ensures WeekOf(r, asOf) < WEEKS
  {
  }

  /** The values of the positive sums among the weeks `keys`. */
  ghost function Picked(sums: seq<int>, keys: set<int>): multiset<int> {
    if sums == [] then multiset{}
    else
      var n := |sums| - 1;
      Picked(sums[..n], keys) + if n in keys then PickOne(sums[n]) else multiset{}
  }

  ghost function PickOne(x: int): multiset<int> {
    if x > 0 then multiset{x} else multiset{}
  }

  lemma PickLast(sums: seq<int>, keys: set<int>)
    requires sums != []
    ensures var n := |sums| - 1;
            Picked(sums, keys) == Picked(sums[..n], keys) + if n in keys then PickOne(sums[n]) else multiset{}
  {
  }

  lemma SwapAdded(p: multiset<int>, x: multiset<int>, y: multiset<int>)
    ensures (p + x) + y == (p + y) + x
  {
  }

  lemma {:induction false} PickMore(sums: seq<int>, keys: set<int>, k: int)
    requires 0 <= k < |sums| && k !in keys
    ensures Picked(sums, keys + {k}) == Picked(sums, keys) + PickOne(sums[k])
  {
    hide Picked, PickOne;
    var n := |sums| - 1;
    var p := Picked(sums[..n], keys);
    PickLast(sums, keys);
    PickLast(sums, keys + {k});
    if k < n {
      PickMore(sums[..n], keys, k);
      SwapAdded(p, PickOne(sums[k]), if n in keys then PickOne(sums[n]) else multiset{});
    } else {
      PickSame(sums[..n], keys, keys + {k});
    }
  }

  lemma {:induction false} PickSame(sums: seq<int>, a: set<int>, b: set<int>)
    requires forall k | 0 <= k < |sums| && sums[k] > 0 :: k in a <==> k in b
    ensures Picked(sums, a) == Picked(sums, b)
  {
    if sums != [] {
      PickSame(sums[..|sums| - 1], a, b);
    }
  }

  lemma {:induction false} PickAll(sums: seq<int>, keys: set<int>)
    requires forall k | 0 <= k < |sums| && sums[k] > 0 :: k in keys
    ensures Picked(sums, keys) == multiset(Positives(sums))
  {
    if sums != [] {
      PickAll(sums[..|sums| - 1], keys);
    }
  }

  /** The map holds the int64 sum of every week with a row in the window. */
  ghost predicate Bucketed(weekMinor: map<int, int>, rs: seq<Repayment>, asOf: int) {
    && (forall k | k in weekMinor :: 0 <= k < WEEKS && weekMinor[k] == Wrap(Total(rs, asOf, Some(k))))
    && (forall k: nat | k < WEEKS && k !in weekMinor :: Total(rs, asOf, Some(k)) == 0)
  }

  /** The positive week sums, in the map's arbitrary order, then sorted. */
  method ActiveWeeks(weekMinor: map<int, int>, ghost rs: seq<Repayment>, ghost asOf: int) returns (weekly: seq<int>)
    requires Bucketed(weekMinor, rs, asOf)
    ensures weekly == Weekly(rs, asOf)
  {
    ghost var sums := WeekSums(rs, asOf, WEEKS);
    BucketsAreSums(weekMinor, rs, asOf);
    weekly := PositiveValues(weekMinor, sums);
    Sorting.SortOfPermutation(Sorting.IntLe, weekly, Positives(sums));
    weekly := Sorting.Sort(Sorting.IntLe, weekly);
  }

  lemma BucketsAreSums(weekMinor: map<int, int>, rs: seq<Repayment>, asOf: int)
    requires Bucketed(weekMinor, rs, asOf)
    ensures var sums := WeekSums(rs, asOf, WEEKS);
            && (forall k | k in weekMinor :: 0 <= k < |sums| && weekMinor[k] == sums[k])
            && (forall k | 0 <= k < |sums| && sums[k] > 0 :: k in weekMinor)
  {
  }

  /** The next key of a map iteration, in no promised order. */
  method AnyOf<T(==)>(keys: set<T>) returns (k: T)
    requires keys != {}
    ensures k in keys
  {
    k :| k in keys;
  }

  method PositiveValues(weekMinor: map<int, int>, ghost sums: seq<int>) returns (weekly: seq<int>)
    requires forall k | k in weekMinor :: 0 <= k < |sums| && weekMinor[k] == sums[k]
    requires forall k | 0 <= k < |sums| && sums[k] > 0 :: k in weekMinor
    ensures multiset(weekly) == multiset(Positives(sums))
  {
    weekly := [];
    var left := weekMinor.Keys;
    ghost var done: set<int> := {};
    PickNone(sums);
    while left != {}
      invariant left == weekMinor.Keys - done
      invariant multiset(weekly) == Picked(sums, done)
      decreases |left|
    {
      var k := AnyOf(left);
      PickMore(sums, done, k);
      left := left - {k};
      done := done + {k};
      if weekMinor[k] > 0 {
        weekly := weekly + [weekMinor[k]];
      }
    }
    PickAll(sums, done);
  }

  lemma {:induction false} PickNone(sums: seq<int>)
    ensures Picked(sums, {}) == multiset{}
  {
    if sums != [] {
      PickNone(sums[..|sums| - 1]);
    }
  }

  lemma BucketStep(weekMinor: map<int, int>, rs: seq<Repayment>, asOf: int, r: Repayment)
    requires Bucketed(weekMinor, rs, asOf)
    ensures InWindow(r, asOf) ==>
              var wk := WeekOf(r, asOf);
              Bucketed(weekMinor[wk := Wrap((if wk in weekMinor then weekMinor[wk] else 0) + r.amount)], rs + [r], asOf)
    ensures !InWindow(r, asOf) ==> Bucketed(weekMinor, rs + [r], asOf)
  {
    assert (rs + [r])[..|rs|] == rs;
    if InWindow(r, asOf) {
      WeekInRange(r, asOf);
      WrapAdd(Total(rs, asOf, Some(WeekOf(r, asOf))), r.amount);
    }
  }

  lemma RunningTotals(rs: seq<Repayment>, asOf: int, r: Repayment)
    ensures Wrap(Total(rs + [r], asOf, None)) ==
            if InWindow(r, asOf) then Wrap(Wrap(Total(rs, asOf, None)) + r.amount) else Wrap(Total(rs, asOf, None))
    ensures var e := Earliest(rs, asOf);
            Earliest(rs + [r], asOf) == if InWindow(r, asOf) && (e.None? || r.applied < e.value) then Some(r.applied) else e
  {
    assert (rs + [r])[..|rs|] == rs;
    WrapAdd(Total(rs, asOf, None), r.amount);
  }

  lemma BucketStart(asOf: int)
    ensures Bucketed(map[], [], asOf) && Wrap(Total([], asOf, None)) == 0 && Earliest([], asOf) == None
  {
  }

  /** One pass over the rows: the week sums, their total and the earliest row, over the window. */
  method Bucket(repayments: seq<Repayment>, asOf: int)
    returns (weekMinor: map<int, int>, recovered: int, earliest: Option<int>)
    ensures Bucketed(weekMinor, repayments, asOf)
    ensures recovered == Wrap(Total(repayments, asOf, None))
    ensures earliest == Earliest(repayments, asOf)
  {
    hide Bucketed, Total, Earliest, Wrap, TruncDiv;
    var cutoff := asOf - WINDOW_DAYS * DAY;
    weekMinor, recovered, earliest := map[], 0, None;
    BucketStart(asOf);
    var i := 0;
    while i < |repayments|
      invariant 0 <= i <= |repayments|
      invariant recovered == Wrap(Total(repayments[..i], asOf, None))
      invariant earliest == Earliest(repayments[..i], asOf)
      invariant Bucketed(weekMinor, repayments[..i], asOf)
    {
      var r := repayments[i];
      assert repayments[..i + 1] == repayments[..i] + [r];
      BucketStep(weekMinor, repayments[..i], asOf, r);
      RunningTotals(repayments[..i], asOf, r);
      if r.applied > cutoff {
        var wk := TruncDiv(asOf - r.applied, WEEK);
        if wk < 0 {
          wk := 0;
        }
        weekMinor := weekMinor[wk := Wrap((if wk in weekMinor then weekMinor[wk] else 0) + r.amount)];
        recovered := Wrap(recovered + r.amount);
        if earliest.None? || r.applied < earliest.value {
          earliest := Some(r.applied);
        }
      }
      i := i + 1;
    }
    assert repayments[..i] == repayments;
  }

  method RepaymentOutlookFrom(owed: int, repayments: seq<Repayment>, asOf: int) returns (out: Outlook)
    requires InRange(owed)
    ensures out == OutlookOf(owed, repayments, asOf)
  {
    out := Outlook(Cleared, 0, 0, 0, 0, 0);
    if owed <= 0 {
      return;
    }
    if |repayments| == 0 {
      return out.(status := NoHistory);
    }
    var weekMinor, recovered, earliest := Bucket(repayments, asOf);
    if recovered == 0 {
      return out.(status := Stalled);
    }
    var weekly := ActiveWeeks(weekMinor, repayments, asOf);
    out := out.(recovered := recovered, activeWeeks := |weekly|);
    if |weekly| < MIN_ACTIVE_WEEKS {
      return out.(status := Insufficient);
    }
    var fast, slow := Percentile(weekly, 75), Percentile(weekly, 25);
    var spanDays := if earliest.None? then 0 else TruncDiv(asOf - earliest.value, DAY);
    if spanDays < 7 {
      spanDays := 7;
    }
    out := Outlook(Projected, recovered, |weekly|, Percentile(weekly, 50),
                   CalendarWeeks(CeilDiv(owed, fast), spanDays, |weekly|),
                   CalendarWeeks(CeilDiv(owed, slow), spanDays, |weekly|));
  }

  // ------------------------------------------------------------------ the order of the rows

  lemma {:induction false} TotalRemove(rs: seq<Repayment>, asOf: int, w: Option<nat>, k: nat)
    requires k < |rs|
    ensures Total(rs, asOf, w) == Total(RemoveAt(rs, k), asOf, w) + if Counts(rs[k], asOf, w) then rs[k].amount else 0
  {
    var n := |rs| - 1;
    if k == n {
      assert RemoveAt(rs, k) == rs[..n];
    } else {
      assert RemoveAt(rs, k)[..n - 1] == RemoveAt(rs[..n], k);
      TotalRemove(rs[..n], asOf, w, k);
    }
  }

  lemma {:induction false} TotalOfPermutation(a: seq<Repayment>, b: seq<Repayment>, asOf: int, w: Option<nat>)
    requires multiset(a) == multiset(b)
    ensures Total(a, asOf, w) == Total(b, asOf, w)
    decreases |a|
  {
    assert |a| == |multiset(a)| == |multiset(b)| == |b|;
    if a != [] {
      var k := MatchFirst(a, b);
      TotalOfPermutation(RemoveAt(a, 0), RemoveAt(b, k), asOf, w);
      TotalRemove(a, asOf, w, 0);
      TotalRemove(b, asOf, w, k);
    }
  }

  /** The earliest row is in the window, and no row in the window is before it. */
  lemma {:induction false} EarliestIsLeast(rs: seq<Repayment>, asOf: int)
    ensures var e := Earliest(rs, asOf);
            && (forall i | 0 <= i < |rs| && InWindow(rs[i], asOf) :: e.Some? && e.value <= rs[i].applied)
            && (e.Some? ==> exists i :: 0 <= i < |rs| && InWindow(rs[i], asOf) && rs[i].applied == e.value)
  {
    if rs != [] {
      EarliestIsLeast(rs[..|rs| - 1], asOf);
    }
  }

  lemma EarliestOfPermutation(a: seq<Repayment>, b: seq<Repayment>, asOf: int)
    requires multiset(a) == multiset(b)
    ensures Earliest(a, asOf) == Earliest(b, asOf)
  {
    EarliestIsLeast(a, asOf);
    EarliestIsLeast(b, asOf);
    forall r: Repayment ensures r in a <==> r in b {
      assert r in multiset(a) <==> r in multiset(b);
    }
    forall r: Repayment | r in a && InWindow(r, asOf)
      ensures Earliest(a, asOf).Some? && Earliest(b, asOf).Some?
      ensures Earliest(a, asOf).value <= r.applied && Earliest(b, asOf).value <= r.applied
    {
    }
  }

  /** The outlook does not depend on the order of the rows, even where the sums wrap. */
  lemma OrderDoesNotMatter(owed: int, a: seq<Repayment>, b: seq<Repayment>, asOf: int)
    requires multiset(a) == multiset(b)
    ensures OutlookOf(owed, a, asOf) == OutlookOf(owed, b, asOf)
  {
    assert |a| == |multiset(a)| == |multiset(b)| == |b|;
    forall w: Option<nat> ensures Total(a, asOf, w) == Total(b, asOf, w) {
      TotalOfPermutation(a, b, asOf, w);
    }
    EarliestOfPermutation(a, b, asOf);
    assert WeekSums(a, asOf, WEEKS) == WeekSums(b, asOf, WEEKS);
  }

  // ------------------------------------------------------------------ the projection

  lemma {:induction false} PositivesFacts(s: seq<int>)
    requires forall i | 0 <= i < |s| :: s[i] <= MAX_INT64
    ensures |Positives(s)| <= |s|
    ensures forall i | 0 <= i < |Positives(s)| :: 1 <= Positives(s)[i] <= MAX_INT64
  {
    if s != [] {
      PositivesFacts(s[..|s| - 1]);
    }
  }

  /** The weekly sums: ascending, positive, at most nine of them. */
  lemma WeeklyFacts(rs: seq<Repayment>, asOf: int)
    ensures Ascending(Weekly(rs, asOf)) && |Weekly(rs, asOf)| <= WEEKS
    ensures forall i | 0 <= i < |Weekly(rs, asOf)| :: 1 <= Weekly(rs, asOf)[i] <= MAX_INT64
  {
    var sums := WeekSums(rs, asOf, WEEKS);
    PositivesFacts(sums);
    var ps, t := Positives(sums), Weekly(rs, asOf);
    Sorting.SortSorts(Sorting.IntLe, ps);
    forall i | 0 <= i < |t| ensures 1 <= t[i] <= MAX_INT64 {
      assert t[i] in multiset(ps);
      var k :| 0 <= k < |ps| && ps[k] == t[i];
    }
    assert forall i, j | 0 <= i < j < |t| :: Sorting.IntLe(t[i], t[j]);
  }

  lemma SpanInRange(rs: seq<Repayment>, asOf: int)
    ensures 7 <= SpanDays(rs, asOf) <= 59
  {
    EarliestIsLeast(rs, asOf);
    var e := Earliest(rs, asOf);
    if e.Some? {
      assert asOf - e.value < WINDOW_DAYS * DAY;
    }
  }

  lemma QuotientAtMost(x: nat, t: int)
    requires t >= 1
    ensures x / t >= 0 && (x / t) * t <= x
  {
    DivMod(x, t);
    MulCancel(-1, x / t, t);
  }

  lemma TruncDivAtMost(y: int, t: int)
    requires t >= 1
    ensures y < 0 ==> TruncDiv(y, t) <= 0
    ensures y >= 0 ==> 0 <= TruncDiv(y, t) && TruncDiv(y, t) * t <= y
  {
    if y >= 0 {
      QuotientAtMost(y, t);
      assert TruncDiv(y, t) == y / t;
    } else {
      QuotientAtMost(0 - y, t);
      assert TruncDiv(y, t) == 0 - (0 - y) / t;
    }
  }

  lemma RoundingWraps(x: int, t: int)
    requires InRange(x) && 1 <= t <= MAX_INT64
    ensures Wrap(x + t - 1) <= x + t - 1
    ensures x >= 1 && x + t - 1 > MAX_INT64 ==> Wrap(x + t - 1) < 0
  {
    if x + t - 1 > MAX_INT64 {
      WrapUnique(x + t - 1, x + t - 1 - TWO_64, 1);
    }
  }

  /** A rounded-up int64 division with a dividend in range covers no more than the dividend and the rounding. */
  lemma CeilDivAtMost(x: int, t: int)
    requires InRange(x) && 1 <= t <= MAX_INT64
    ensures CeilDiv(x, t) <= 0 || CeilDiv(x, t) * t <= x + t - 1
    ensures x >= 1 && x + t - 1 > MAX_INT64 ==> CeilDiv(x, t) <= 0
  {
    hide Wrap, TruncDiv;
    RoundingWraps(x, t);
    TruncDivAtMost(Wrap(x + t - 1), t);
  }

  /** Least calendar weeks: at least the paying weeks, covering the cadence, and no more. */
  predicate Tight(weeks: int, paying: int, spanDays: int, active: int) {
    && weeks >= paying && weeks * (7 * active) >= paying * spanDays
    && (weeks == paying || (weeks - 1) * (7 * active) < paying * spanDays)
  }

  /** The int64 product and rounding of the cadence leave room, or are not needed. */
  predicate CadenceFits(paying: int, spanDays: int, active: int) {
    spanDays <= 7 * active || paying * spanDays + 7 * active - 1 <= MAX_INT64
  }

  /** Calendar weeks are never fewer than repayment weeks, and they are the least that cover the cadence
      exactly when the cadence arithmetic fits or the cadence is no slower than weekly. */
  lemma CalendarIsLeastIff(paying: int, spanDays: int, active: int)
    requires 1 <= paying <= MAX_INT64 && 1 <= spanDays <= 59 && 1 <= active <= WEEKS
    ensures var cal := CalendarWeeks(paying, spanDays, active);
            && cal >= paying
            && (Tight(cal, paying, spanDays, active) <==> CadenceFits(paying, spanDays, active))
            && (spanDays <= 7 * active ==> cal == paying)
  {
    var t, x := 7 * active, paying * spanDays;
    MulMono(1, paying, spanDays);
    var cal := CalendarWeeks(paying, spanDays, active);
    if x <= MAX_INT64 {
      CalendarInRange(paying, spanDays, active, x);
    } else {
      CalendarWrapped(paying, spanDays, active, x);
    }
  }

  lemma CalendarInRange(paying: int, spanDays: int, active: int, x: int)
    requires 1 <= paying && 1 <= spanDays <= 59 && 1 <= active <= WEEKS && x == paying * spanDays && 1 <= x <= MAX_INT64
    ensures var cal := CalendarWeeks(paying, spanDays, active);
            && cal >= paying
            && (Tight(cal, paying, spanDays, active) <==> CadenceFits(paying, spanDays, active))
            && (spanDays <= 7 * active ==> cal == paying)
  {
    var t := 7 * active;
    var q, cal := CeilDiv(x, t), CalendarWeeks(paying, spanDays, active);
    CeilDivAtMost(x, t);
    Scales(paying, spanDays, t, x);
    if x + t - 1 <= MAX_INT64 {
      CeilDivIsLeast(x, t);
      MulMono(q, cal, t);
      MulCancel(q - 1, paying, t);
    }
    hide Wrap, TruncDiv, CeilDiv;
  }

  lemma CalendarWrapped(paying: int, spanDays: int, active: int, x: int)
    requires 1 <= paying <= MAX_INT64 && 1 <= spanDays <= 59 && 1 <= active <= WEEKS && x == paying * spanDays && x > MAX_INT64
    ensures var cal := CalendarWeeks(paying, spanDays, active);
            && cal >= paying
            && (Tight(cal, paying, spanDays, active) <==> CadenceFits(paying, spanDays, active))
            && (spanDays <= 7 * active ==> cal == paying)
  {
    var t := 7 * active;
    var w := Wrap(x);
    var q, cal := CeilDiv(w, t), CalendarWeeks(paying, spanDays, active);
    CeilDivAtMost(w, t);
    WrapBelow(x);
    Scales(paying, spanDays, t, x);
    if q > paying {
      MulMono(paying + 1, q, t);
      Distribute(paying, 1, t);
    }
    hide Wrap, TruncDiv, CeilDiv;
  }

  lemma WrapBelow(x: int)
    requires x > MAX_INT64
    ensures Wrap(x) <= x - TWO_64
  {
    var k := (x - Wrap(x)) / TWO_64;
    assert x - Wrap(x) == k * TWO_64;
  }

  /** Products by the span and by the cadence compare as the span and the cadence do. */
  lemma Scales(paying: int, spanDays: int, t: int, x: int)
    requires paying >= 1 && x == paying * spanDays
    ensures spanDays <= t ==> x <= paying * t
    ensures spanDays > t ==> x > paying * t
  {
    if spanDays <= t {
      MulMono(spanDays, t, paying);
    } else {
      MulMono(t + 1, spanDays, paying);
      Distribute(t, 1, paying);
    }
  }

  /** The division by the pace leaves room in an int64. */
  predicate PaceFits(owed: int, pace: int) {
    owed + pace - 1 <= MAX_INT64
  }

  /** The paying weeks that clear a debt, when the division fits. */
  function PayingWeeks(owed: int, pace: int): int
    requires pace > 0
  {
    (owed + pace - 1) / pace
  }

  /** `weeks` is the paying weeks that clear `owed` at `pace`, stretched to the cadence of `active` paying
      weeks in `spanDays`, and no more. */
  ghost predicate Clears(weeks: int, owed: int, pace: int, spanDays: int, active: int) {
    exists paying: int ::
      && paying >= 1 && paying * pace >= owed && (paying - 1) * pace < owed
      && Tight(weeks, paying, spanDays, active)
  }

  /** One end of the range: it is a positive number of weeks, and one that covers the debt, exactly when the
      division by the pace fits; and it is the least such time exactly when the cadence fits too. */
  lemma EndOfRangeIff(owed: int, pace: int, spanDays: int, active: int)
    requires 1 <= owed <= MAX_INT64 && 1 <= pace <= MAX_INT64 && 7 <= spanDays <= 59 && 1 <= active <= WEEKS
    ensures var weeks := CalendarWeeks(CeilDiv(owed, pace), spanDays, active);
            && (weeks >= 1 <==> PaceFits(owed, pace))
            && (weeks * pace >= owed <==> PaceFits(owed, pace))
            && (PaceFits(owed, pace) ==> CeilDiv(owed, pace) == PayingWeeks(owed, pace) >= 1)
            && (Clears(weeks, owed, pace, spanDays, active)
                <==> PaceFits(owed, pace) && CadenceFits(PayingWeeks(owed, pace), spanDays, active))
  {
    var paying := CeilDiv(owed, pace);
    var weeks := CalendarWeeks(paying, spanDays, active);
    if PaceFits(owed, pace) {
      CeilDivIsLeast(owed, pace);
      assert paying == PayingWeeks(owed, pace);
      CalendarIsLeastIff(paying, spanDays, active);
      MulMono(paying, weeks, pace);
      ClearsIff(weeks, owed, pace, spanDays, active, paying);
    } else {
      CeilDivAtMost(owed, pace);
      assert weeks == paying <= 0;
      MulMono(weeks, 0, pace);
      hide CeilDiv, CalendarWeeks;
    }
  }

  lemma ClearsIff(weeks: int, owed: int, pace: int, spanDays: int, active: int, paying: int)
    requires pace >= 1 && paying >= 1 && paying * pace >= owed && (paying - 1) * pace < owed
    ensures Clears(weeks, owed, pace, spanDays, active) <==> Tight(weeks, paying, spanDays, active)
  {
    hide Tight;
    forall other: int | other >= 1 && other * pace >= owed && (other - 1) * pace < owed ensures other == paying {
      MulCancel(paying - 1, other, pace);
      MulCancel(other - 1, paying, pace);
    }
    if Tight(weeks, paying, spanDays, active) {
      assert paying >= 1 && paying * pace >= owed && (paying - 1) * pace < owed && Tight(weeks, paying, spanDays, active);
    }
  }

  /** A slower pace that fits the cadence: so does the faster one, and it is stretched no further. */
  lemma FitsInOrder(p: int, q: int, spanDays: int, active: int)
    requires 1 <= p <= q <= MAX_INT64 && 7 <= spanDays <= 59 && 1 <= active <= WEEKS && CadenceFits(q, spanDays, active)
    ensures CadenceFits(p, spanDays, active)
    ensures CalendarWeeks(p, spanDays, active) <= CalendarWeeks(q, spanDays, active)
  {
    CalendarIsLeastIff(p, spanDays, active);
    CalendarIsLeastIff(q, spanDays, active);
    MulMono(p, q, spanDays);
    if spanDays > 7 * active {
      MulMono(1, p, spanDays);
      CeilDivMonotone(p * spanDays, q * spanDays, 7 * active);
      hide CeilDiv;
    }
  }

  /** From three paying weeks on, a cadence that does not fit leaves the paying weeks unstretched. */
  lemma CutToPaying(paying: int, spanDays: int, active: int)
    requires 1 <= paying <= MAX_INT64 && 7 <= spanDays <= 59 && 3 <= active <= WEEKS
    requires !CadenceFits(paying, spanDays, active)
    ensures CalendarWeeks(paying, spanDays, active) == paying
  {
    var t, x := 7 * active, paying * spanDays;
    MulMono(1, paying, spanDays);
    if x <= MAX_INT64 {
      CeilDivAtMost(x, t);
    } else {
      var w := Wrap(x);
      WrapBelow(x);
      MulMono(spanDays, 59, paying);
      MulMono(21, t, paying);
      assert w <= paying * t;
      CeilDivAtMost(w, t);
      if CeilDiv(w, t) > paying {
        MulMono(paying + 1, CeilDiv(w, t), t);
        Distribute(paying, 1, t);
      }
    }
    hide Wrap, TruncDiv, CeilDiv;
  }

  /** The stretched weeks of `p` stay within `q` exactly when the days of `p` do. */
  lemma StretchWithin(p: int, q: int, spanDays: int, active: int)
    requires 1 <= p <= q && 7 <= spanDays <= 59 && 1 <= active <= WEEKS && CadenceFits(p, spanDays, active) && p <= MAX_INT64
    ensures CalendarWeeks(p, spanDays, active) <= q <==> p * spanDays <= q * (7 * active)
  {
    var t, cal := 7 * active, CalendarWeeks(p, spanDays, active);
    CalendarIsLeastIff(p, spanDays, active);
    hide CalendarWeeks;
    if cal <= q {
      MulMono(cal, q, t);
    }
    MulCancel(cal - 1, q, t);
    if cal == p {
      MulMono(p, q, t);
      Scales(p, spanDays, t, p * spanDays);
    }
  }

  /** The range runs upward from at least one week. */
  predicate InOrder(o: Outlook) {
    1 <= o.optimisticWeeks <= o.pessimisticWeeks
  }

  /** The condition on the paying weeks `p` at the faster pace and `q` at the slower one. */
  predicate KeepsOrder(p: int, q: int, spanDays: int, active: int) {
    CadenceFits(q, spanDays, active) || !CadenceFits(p, spanDays, active) || p * spanDays <= q * (7 * active)
  }

  lemma OrderIff(p: int, q: int, spanDays: int, active: int)
    requires 1 <= p <= q <= MAX_INT64 && 7 <= spanDays <= 59 && 3 <= active <= WEEKS
    ensures CalendarWeeks(p, spanDays, active) <= CalendarWeeks(q, spanDays, active) <==> KeepsOrder(p, q, spanDays, active)
  {
    if CadenceFits(q, spanDays, active) {
      FitsInOrder(p, q, spanDays, active);
    } else {
      CutToPaying(q, spanDays, active);
      if CadenceFits(p, spanDays, active) {
        StretchWithin(p, q, spanDays, active);
      } else {
        CutToPaying(p, spanDays, active);
      }
    }
    hide CalendarWeeks, CadenceFits;
  }

  /** For any rows: the range of a projection runs upward from at least one week exactly when the division by
      the faster pace fits and the slower end is not cut below the stretched faster one. */
  lemma RangeInOrderIff(owed: int, rs: seq<Repayment>, asOf: int)
    requires owed <= MAX_INT64 && OutlookOf(owed, rs, asOf).status == Projected
    ensures var o, span := OutlookOf(owed, rs, asOf), SpanDays(rs, asOf);
            var fast, slow := Percentile(Weekly(rs, asOf), 75), Percentile(Weekly(rs, asOf), 25);
            && 1 <= slow <= fast
            && (InOrder(o) <==> PaceFits(owed, fast) && KeepsOrder(PayingWeeks(owed, fast), PayingWeeks(owed, slow), span, o.activeWeeks))
  {
    hide Weekly, SpanDays, CalendarWeeks, CeilDiv, CadenceFits, PayingWeeks, Clears, KeepsOrder;
    var weekly, span := Weekly(rs, asOf), SpanDays(rs, asOf);
    var fast, slow := Percentile(weekly, 75), Percentile(weekly, 25);
    WeeklyFacts(rs, asOf);
    SpanInRange(rs, asOf);
    PercentileIsNearestRank(weekly, 25);
    PercentileIsNearestRank(weekly, 75);
    PercentileMonotone(weekly, 25, 75);
    hide Percentile;
    EndOfRangeIff(owed, fast, span, |weekly|);
    EndOfRangeIff(owed, slow, span, |weekly|);
    if PaceFits(owed, fast) {
      PayingInOrder(owed, fast, slow);
      OrderIff(PayingWeeks(owed, fast), PayingWeeks(owed, slow), span, |weekly|);
    }
  }

  lemma PayingInOrder(owed: int, fast: int, slow: int)
    requires 1 <= owed <= MAX_INT64 && 1 <= slow <= fast && PaceFits(owed, fast)
    ensures 1 <= PayingWeeks(owed, fast) <= PayingWeeks(owed, slow) <= MAX_INT64
  {
    CeilDivIsLeast(owed, slow);
    CeilDivIsLeast(owed, fast);
    CeilDivAntitone(owed, slow, fast);
    assert CeilDiv(owed, fast) == PayingWeeks(owed, fast) && CeilDiv(owed, slow) == PayingWeeks(owed, slow);
  }

  /** The range is what it claims: at least one week, the optimistic end first, and each end the least time
      that clears the whole debt at its percentile pace and the subscriber's cadence. */
  ghost predicate Honest(owed: int, rs: seq<Repayment>, asOf: int) {
    var o := OutlookOf(owed, rs, asOf);
    && 1 <= o.optimisticWeeks <= o.pessimisticWeeks
    && Clears(o.optimisticWeeks, owed, Percentile(Weekly(rs, asOf), 75), SpanDays(rs, asOf), o.activeWeeks)
    && Clears(o.pessimisticWeeks, owed, Percentile(Weekly(rs, asOf), 25), SpanDays(rs, asOf), o.activeWeeks)
  }

  /** For any rows and any debt: each end of a projection is at least one week, and covers the debt at its
      pace, exactly when the division by that pace fits; the range is honest exactly when the faster division
      and the slower cadence fit. */
  lemma ProjectionIsHonestIff(owed: int, rs: seq<Repayment>, asOf: int)
    requires owed <= MAX_INT64 && OutlookOf(owed, rs, asOf).status == Projected
    ensures var o := OutlookOf(owed, rs, asOf);
            var fast, slow := Percentile(Weekly(rs, asOf), 75), Percentile(Weekly(rs, asOf), 25);
            && 1 <= slow <= o.typicalWeekly <= fast
            && (o.optimisticWeeks >= 1 <==> PaceFits(owed, fast)) && (o.pessimisticWeeks >= 1 <==> PaceFits(owed, slow))
            && (o.optimisticWeeks * fast >= owed <==> PaceFits(owed, fast))
            && (o.pessimisticWeeks * slow >= owed <==> PaceFits(owed, slow))
            && (Honest(owed, rs, asOf)
                <==> PaceFits(owed, fast) && CadenceFits(PayingWeeks(owed, slow), SpanDays(rs, asOf), o.activeWeeks))
  {
    hide Weekly, SpanDays, CalendarWeeks, CeilDiv, Clears, CadenceFits, PayingWeeks;
    var weekly, span := Weekly(rs, asOf), SpanDays(rs, asOf);
    var fast, slow := Percentile(weekly, 75), Percentile(weekly, 25);
    WeeklyFacts(rs, asOf);
    SpanInRange(rs, asOf);
    PercentileIsNearestRank(weekly, 25);
    PercentileIsNearestRank(weekly, 75);
    PercentileMonotone(weekly, 25, 50);
    PercentileMonotone(weekly, 50, 75);
    hide Percentile;
    EndOfRangeIff(owed, fast, span, |weekly|);
    EndOfRangeIff(owed, slow, span, |weekly|);
    if PaceFits(owed, fast) && CadenceFits(PayingWeeks(owed, slow), span, |weekly|) {
      PayingInOrder(owed, fast, slow);
      FitsInOrder(PayingWeeks(owed, fast), PayingWeeks(owed, slow), span, |weekly|);
    }
  }

  /** The weeks of the window with a positive int64 sum. */
  function PayingSet(rs: seq<Repayment>, asOf: int, n: nat): set<nat> {
    set w: nat | w < n && Wrap(Total(rs, asOf, Some(w))) > 0
  }

  lemma {:induction false} PositivesCount(rs: seq<Repayment>, asOf: int, n: nat)
    ensures |Positives(WeekSums(rs, asOf, n))| == |PayingSet(rs, asOf, n)|
  {
    hide Total, Wrap;
    if n > 0 {
      var s := WeekSums(rs, asOf, n);
      assert s[..n - 1] == WeekSums(rs, asOf, n - 1);
      PositivesCount(rs, asOf, n - 1);
      var was := PayingSet(rs, asOf, n - 1);
      assert PayingSet(rs, asOf, n) == if s[n - 1] > 0 then was + {n - 1} else was;
    }
  }

  lemma WeeklyCount(rs: seq<Repayment>, asOf: int)
    ensures |Weekly(rs, asOf)| == |PayingSet(rs, asOf, WEEKS)|
  {
    PositivesCount(rs, asOf, WEEKS);
    Sorting.SortSorts(Sorting.IntLe, Positives(WeekSums(rs, asOf, WEEKS)));
    hide PayingSet, Positives, WeekSums, Sorting.Sort;
  }

  /** Which disposition is given, for any rows: the int64 net decides a stall, and three weeks of the window with
      a positive sum decide a projection; those weeks are what the outlook counts. */
  lemma StatusIs(owed: int, rs: seq<Repayment>, asOf: int)
    ensures var o, net, paying := OutlookOf(owed, rs, asOf), Wrap(Total(rs, asOf, None)), |PayingSet(rs, asOf, WEEKS)|;
            && (o.status == Cleared <==> owed <= 0)
            && (o.status == NoHistory <==> owed > 0 && rs == [])
            && (o.status == Stalled <==> owed > 0 && rs != [] && net == 0)
            && (o.status == Insufficient <==> owed > 0 && rs != [] && net != 0 && paying < MIN_ACTIVE_WEEKS)
            && (o.status == Projected <==> owed > 0 && rs != [] && net != 0 && paying >= MIN_ACTIVE_WEEKS)
            && (o.status == Insufficient || o.status == Projected ==> o.activeWeeks == paying)
  {
    WeeklyCount(rs, asOf);
    hide PayingSet, Weekly, Total, Wrap;
  }

  /** A claw-back of all that was repaid in the window reads as a stall, although the subscriber did repay. */
  lemma ClawedBackReadsStalled(asOf: int, owed: int)
    requires owed > 0
    ensures OutlookOf(owed, [Repayment(asOf - DAY, 500), Repayment(asOf, -500)], asOf).status == Stalled
  {
    var a, b := Repayment(asOf - DAY, 500), Repayment(asOf, -500);
    assert [a, b][..1] == [a] && [a][..0] == [];
    assert Total([a], asOf, None) == 500;
  }

  // ------------------------------------------------------------------ a range that goes wrong

  /** 2 minor units a week, in the last three weeks. */
  function ThreeWeeks(asOf: int): seq<Repayment> {
    [Repayment(asOf, 2), Repayment(asOf - WEEK, 2), Repayment(asOf - 2 * WEEK, 2)]
  }

  lemma ThreeWeekTotals(asOf: int, w: Option<nat>)
    ensures Total(ThreeWeeks(asOf), asOf, w) == if w.None? then 6 else if w.value < 3 then 2 else 0
    ensures Earliest(ThreeWeeks(asOf), asOf) == Some(asOf - 2 * WEEK)
  {
    var a, b, c := Repayment(asOf, 2), Repayment(asOf - WEEK, 2), Repayment(asOf - 2 * WEEK, 2);
    assert WeekOf(a, asOf) == 0 && WeekOf(b, asOf) == 1 && WeekOf(c, asOf) == 2;
    assert InWindow(a, asOf) && InWindow(b, asOf) && InWindow(c, asOf);
    assert [a, b, c][..2] == [a, b] && [a, b][..1] == [a] && [a][..0] == [];
    assert Total([a], asOf, w) == if Counts(a, asOf, w) then 2 else 0;
    assert Total([a, b], asOf, w) == Total([a], asOf, w) + if Counts(b, asOf, w) then 2 else 0;
    assert Earliest([a], asOf) == Some(asOf);
    assert Earliest([a, b], asOf) == Some(asOf - WEEK);
  }

  lemma {:induction false} ZerosArePassed(s: seq<int>, n: nat)
    requires n <= |s| && forall i | n <= i < |s| :: s[i] == 0
    ensures Positives(s) == Positives(s[..n])
  {
    if |s| == n {
      assert s[..n] == s;
    } else {
      ZerosArePassed(s[..|s| - 1], n);
      assert s[..|s| - 1][..n] == s[..n];
    }
  }

  lemma ThreePositives()
    ensures Positives([2, 2, 2]) == [2, 2, 2]
  {
    assert [2, 2, 2][..2] == [2, 2] && [2, 2][..1] == [2] && [2][..0] == [];
    assert Positives([2]) == [2] && Positives([2, 2]) == [2, 2];
  }

  lemma ThreeWeeksWeekly(asOf: int)
    ensures Weekly(ThreeWeeks(asOf), asOf) == [2, 2, 2]
  {
    hide Total, Sorting.Sort;
    var s := WeekSums(ThreeWeeks(asOf), asOf, WEEKS);
    forall w: nat | w < WEEKS ensures s[w] == if w < 3 then 2 else 0 {
      ThreeWeekTotals(asOf, Some(w));
    }
    ZerosArePassed(s, 3);
    assert s[..3] == [2, 2, 2];
    ThreePositives();
    SortOfSorted([2, 2, 2]);
  }

  /** The largest debt, repaid at 2 minor units a week, is projected to clear in a negative number of weeks. */
  lemma HugeDebtGoesNegative(asOf: int)
    ensures var o := OutlookOf(MAX_INT64, ThreeWeeks(asOf), asOf);
            o.status == Projected && o.optimisticWeeks < 0 && o.pessimisticWeeks < 0
  {
    ThreeWeeksWeekly(asOf);
    ThreeWeekTotals(asOf, None);
    WrapUnique(MAX_INT64 + 1, MIN_INT64, 1);
    hide Weekly, Total, SpanDays;
    assert Percentile([2, 2, 2], 75) == 2 && Percentile([2, 2, 2], 25) == 2;
    assert CeilDiv(MAX_INT64, 2) < 0;
  }

  /** A debt whose paying weeks fit but whose slower cadence does not: the end is cut to the paying weeks, and
      a smaller debt is told a longer time. */
  lemma SlowCadenceIsCut()
    ensures var p := MAX_INT64 / 59 + 1;
            && CalendarWeeks(p, 59, 3) == p && !Tight(p, p, 59, 3)
            && Tight(CalendarWeeks(p - 1_000, 59, 3), p - 1_000, 59, 3)
            && CalendarWeeks(p - 1_000, 59, 3) > CalendarWeeks(p, 59, 3)
  {
    var p := MAX_INT64 / 59 + 1;
    CalendarIsLeastIff(p, 59, 3);
    CalendarIsLeastIff(p - 1_000, 59, 3);
  }

  /** 50 minor units this week and last week, and 51 at the far end of the window. */
  function SparseWeeks(asOf: int): seq<Repayment> {
    [Repayment(asOf, 50), Repayment(asOf - WEEK, 50), Repayment(asOf - 59 * DAY, 51)]
  }

  lemma SparseTotals(asOf: int, w: Option<nat>)
    ensures Total(SparseWeeks(asOf), asOf, w)
            == if w.None? then 151 else if w.value < 2 then 50 else if w.value == 8 then 51 else 0
    ensures Earliest(SparseWeeks(asOf), asOf) == Some(asOf - 59 * DAY)
  {
    var a, b, c := Repayment(asOf, 50), Repayment(asOf - WEEK, 50), Repayment(asOf - 59 * DAY, 51);
    assert WeekOf(a, asOf) == 0 && WeekOf(b, asOf) == 1 && WeekOf(c, asOf) == 8;
    assert InWindow(a, asOf) && InWindow(b, asOf) && InWindow(c, asOf);
    assert [a, b, c][..2] == [a, b] && [a, b][..1] == [a] && [a][..0] == [];
    assert Total([a], asOf, w) == if Counts(a, asOf, w) then 50 else 0;
    assert Total([a, b], asOf, w) == Total([a], asOf, w) + if Counts(b, asOf, w) then 50 else 0;
    assert Earliest([a], asOf) == Some(asOf);
    assert Earliest([a, b], asOf) == Some(asOf - WEEK);
  }

  lemma SortOfSorted(s: seq<int>)
    requires Ascending(s)
    ensures Sorting.Sort(Sorting.IntLe, s) == s
  {
    Sorting.SortSorts(Sorting.IntLe, s);
    hide Sorting.Sort;
    Sorting.SortedUnique(Sorting.IntLe, Sorting.Sort(Sorting.IntLe, s), s);
  }

  lemma SparsePositives(s: seq<int>)
    requires |s| == 9 && s[0] == s[1] == 50 && s[8] == 51 && forall i | 2 <= i < 8 :: s[i] == 0
    ensures Positives(s) == [50, 50, 51]
  {
    ZerosArePassed(s[..8], 2);
    assert s[..8][..2] == [50, 50] && [50, 50][..1] == [50] && [50][..0] == [];
    assert Positives([50]) == [50] && Positives([50, 50]) == [50, 50];
    assert Positives(s) == Positives(s[..8]) + [51];
  }

  lemma SparseWeekly(asOf: int)
    ensures Weekly(SparseWeeks(asOf), asOf) == [50, 50, 51]
  {
    hide Total, Positives, Sorting.Sort;
    var s := WeekSums(SparseWeeks(asOf), asOf, WEEKS);
    forall w: nat | w < WEEKS ensures s[w] == if w < 2 then 50 else if w == 8 then 51 else 0 {
      SparseTotals(asOf, Some(w));
    }
    SparsePositives(s);
    SortOfSorted([50, 50, 51]);
  }

  /** The slower end of that debt does not fit the cadence, the faster one does. */
  lemma SparseCadence()
    ensures var owed := 50 * (MAX_INT64 / 59 + 1);
            && 1 <= owed <= MAX_INT64 && PaceFits(owed, 51) && PaceFits(owed, 50)
            && !KeepsOrder(PayingWeeks(owed, 51), PayingWeeks(owed, 50), 59, 3)
  {
    var owed := 50 * (MAX_INT64 / 59 + 1);
    assert PayingWeeks(owed, 50) == MAX_INT64 / 59 + 1;
    assert PayingWeeks(owed, 51) == (owed + 50) / 51;
  }

  /** A debt whose slower end is cut: the range is projected upside down. */
  lemma RangeUpsideDown(asOf: int)
    ensures var o := OutlookOf(50 * (MAX_INT64 / 59 + 1), SparseWeeks(asOf), asOf);
            o.status == Projected && o.optimisticWeeks > o.pessimisticWeeks >= 1
  {
    var owed, rs := 50 * (MAX_INT64 / 59 + 1), SparseWeeks(asOf);
    SparseWeekly(asOf);
    SparseTotals(asOf, None);
    assert SpanDays(rs, asOf) == 59;
    assert Percentile([50, 50, 51], 75) == 51 && Percentile([50, 50, 51], 25) == 50;
    hide *;
    SparseCadence();
    SparseProjected(owed, rs, asOf);
    RangeInOrderIff(owed, rs, asOf);
    EndOfRangeIff(owed, 51, 59, 3);
    EndOfRangeIff(owed, 50, 59, 3);
    NotInOrder(OutlookOf(owed, rs, asOf));
  }

  lemma SparseProjected(owed: int, rs: seq<Repayment>, asOf: int)
    requires owed > 0 && rs != [] && Total(rs, asOf, None) == 151 && Weekly(rs, asOf) == [50, 50, 51]
    requires SpanDays(rs, asOf) == 59 && Percentile([50, 50, 51], 75) == 51 && Percentile([50, 50, 51], 25) == 50
    ensures var o := OutlookOf(owed, rs, asOf);
            && o.status == Projected && o.activeWeeks == 3
            && o.optimisticWeeks == CalendarWeeks(CeilDiv(owed, 51), 59, 3)
            && o.pessimisticWeeks == CalendarWeeks(CeilDiv(owed, 50), 59, 3)
  {
    hide Total, Weekly, SpanDays, CalendarWeeks, CeilDiv;
  }

  lemma NotInOrder(o: Outlook)
    requires !InOrder(o) && o.optimisticWeeks >= 1
    ensures o.optimisticWeeks > o.pessimisticWeeks
  {
  }
}
