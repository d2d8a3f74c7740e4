/** Money arithmetic: overflow checks, the one rounding site and the largest-remainder split. */
module Monetary {
  import opened Arith
  import opened Common
  import opened Int64
  import opened Seqs

  /** Minor units of one currency; the zero value (currency "") is unusable. */
  datatype Money = Money(amount: int, currency: string) {
    predicate IsSet() { currency != "" }
    predicate IsZero() { IsSet() && amount == 0 }
    predicate IsPositive() { IsSet() && amount > 0 }
  }

  datatype MoneyError = CurrencyMismatch | InvalidCurrency | Overflow | Unset | BadRatio

  predicate ValidCurrency(c: string) {
    |c| == 3 && forall i | 0 <= i < 3 :: 'A' <= c[i] <= 'Z'
  }

  function NewMoney(minor: int, currency: string): Result<Money, MoneyError> {
    if ValidCurrency(currency) then Ok(Money(minor, currency)) else Err(InvalidCurrency)
  }

  function SameCurrency(m: Money, o: Money): Result<(), MoneyError> {
    if !m.IsSet() || !o.IsSet() then Err(Unset)
    else if m.currency != o.currency then Err(CurrencyMismatch)
    else Ok(())
  }

  // ------------------------------------------------------------------ checked int64 arithmetic

  function Add(m: Money, o: Money): Result<Money, MoneyError> {
    var _ :- SameCurrency(m, o);
    var sum := Wrap(m.amount + o.amount);
    if (m.amount > 0 && o.amount > 0 && sum < 0) || (m.amount < 0 && o.amount < 0 && sum >= 0)
    then Err(Overflow)
    else Ok(Money(sum, m.currency))
  }

  function Neg(m: Money): Result<Money, MoneyError> {
    if !m.IsSet() then Err(Unset)
    else if m.amount == MIN_INT64 then Err(Overflow)
    else Ok(Money(-m.amount, m.currency))
  }

  function Sub(m: Money, o: Money): Result<Money, MoneyError> {
    var _ :- SameCurrency(m, o);
    var neg :- Neg(o);
    Add(m, neg)
  }

  function MulInt(m: Money, n: int): Result<Money, MoneyError> {
    if !m.IsSet() then Err(Unset)
    else if m.amount == 0 || n == 0 then Ok(Money(0, m.currency))
    else if m.amount == MIN_INT64 && n == -1 then Err(Overflow)
    else
      var p := Wrap(m.amount * n);
      if TruncDiv(p, n) != m.amount then Err(Overflow) else Ok(Money(p, m.currency))
  }

  /** The sign test after a wrapping add catches an overflow exactly when there is one. */
  lemma AddIsExact(m: Money, o: Money)
    requires m.IsSet() && o.IsSet() && m.currency == o.currency
    requires InRange(m.amount) && InRange(o.amount)
    ensures Add(m, o) ==
            if InRange(m.amount + o.amount) then Ok(Money(m.amount + o.amount, m.currency)) else Err(Overflow)
  {
    var x := m.amount + o.amount;
    if x > MAX_INT64 {
      WrapUnique(x, x - TWO_64, 1);
    } else if x < MIN_INT64 {
      WrapUnique(x, x + TWO_64, -1);
    }
  }

  /** Sub goes through Neg, so besides real overflow it refuses a subtrahend of MinInt64,
      even where the difference is representable. */
  lemma SubIsExact(m: Money, o: Money)
    requires m.IsSet() && o.IsSet() && m.currency == o.currency
    requires InRange(m.amount) && InRange(o.amount)
    ensures Sub(m, o) ==
            if InRange(m.amount - o.amount) && o.amount != MIN_INT64
            then Ok(Money(m.amount - o.amount, m.currency)) else Err(Overflow)
  {
    if o.amount != MIN_INT64 {
      AddIsExact(m, Money(-o.amount, o.currency));
    }
  }

  lemma TruncDivUndoesMul(m: int, n: int)
    requires n != 0
    ensures TruncDiv(m * n, n) == m
  {
    var am, an := if m < 0 then -m else m, if n < 0 then -n else n;
    SignOfProduct(m, n);
    DivUnique(am * an, an, am, 0);
  }

  /** The magnitude of a product is the product of the magnitudes. */
  lemma SignOfProduct(m: int, n: int)
    ensures var am, an := if m < 0 then -m else m, if n < 0 then -n else n;
            m * n == if (m < 0) == (n < 0) then am * an else -(am * an)
    ensures m != 0 && n != 0 ==> ((m * n < 0) == ((m < 0) != (n < 0)))
  {
    var am, an := if m < 0 then -m else m, if n < 0 then -n else n;
    if m != 0 && n != 0 {
      MulMono(1, am, an);
    }
  }

  /** `p` is strictly within |n| of n times its truncated quotient. */
  lemma TruncDivBound(p: int, n: int)
    requires n != 0
    ensures var d := p - TruncDiv(p, n) * n;
            (if n < 0 then n else -n) < d < (if n < 0 then -n else n)
  {
    var ap, an := if p < 0 then -p else p, if n < 0 then -n else n;
    var k := ap / an;
    DivMod(ap, an);
    SignOfProduct(k, n);
    SignOfProduct(-k, n);
  }

  /** Dividing the wrapped product back detects an overflow exactly when there is one. */
  lemma MulIntIsExact(m: Money, n: int)
    requires m.IsSet() && InRange(m.amount) && InRange(n)
    ensures MulInt(m, n) ==
            if InRange(m.amount * n) then Ok(Money(m.amount * n, m.currency)) else Err(Overflow)
  {
    if m.amount != 0 && n != 0 && !(m.amount == MIN_INT64 && n == -1) {
      var x := m.amount * n;
      if InRange(x) {
        TruncDivUndoesMul(m.amount, n);
      } else {
        // A wrapped product is off by at least 2^64, and the truncated quotient by less than |n|.
        TruncDivBound(Wrap(x), n);
      }
    }
  }

  // ------------------------------------------------------------------ basis points, half away from zero

  function PercentBps(m: Money, bps: int): Result<Money, MoneyError> {
    if !m.IsSet() then Err(Unset)
    else
      var num := m.amount * bps;
      var q := TruncDiv(num, 10_000);
      var r := TruncMod(num, 10_000);
      var absR := if r < 0 then -r else r;
      var rounded := if absR * 2 >= 10_000 then (if num >= 0 then q + 1 else q - 1) else q;
      if InRange(rounded) then Ok(Money(rounded, m.currency)) else Err(Overflow)
  }

  /** `x` is num/10_000 rounded to the nearest integer, ties away from zero. */
  predicate RoundsTo(num: int, x: int) {
    var d := num - 10_000 * x;
    || (-10_000 < 2 * d < 10_000)
    || (2 * d == 10_000 && num < 0)
    || (2 * d == -10_000 && num > 0)
  }

  /** PercentBps returns the one nearest integer (ties away from zero), or refuses it as too large. */
  lemma PercentBpsIsNearest(m: Money, bps: int, x: int)
    requires m.IsSet()
    ensures RoundsTo(m.amount * bps, x) ==>
              PercentBps(m, bps) == if InRange(x) then Ok(Money(x, m.currency)) else Err(Overflow)
    ensures PercentBps(m, bps) == Ok(Money(x, m.currency)) ==> RoundsTo(m.amount * bps, x)
  {
    var num := m.amount * bps;
    var a := if num < 0 then -num else num;
    assert a == 10_000 * (a / 10_000) + a % 10_000;
  }

  // ------------------------------------------------------------------ largest-remainder allocation

  function Floor(amount: nat, ratio: int, total: int): int
    requires total > 0
  {
    amount * ratio / total
  }

  function Rem(amount: nat, ratio: int, total: int): (r: int)
    requires total > 0
    ensures 0 <= r < total
  {
    amount * ratio % total
  }

  /** Index i is served before index j: larger remainder first, lower index on a tie. */
  predicate Before(amount: nat, ratios: seq<int>, total: int, i: nat, j: nat)
    requires total > 0 && i < |ratios| && j < |ratios|
  {
    var (ri, rj) := (Rem(amount, ratios[i], total), Rem(amount, ratios[j], total));
    ri > rj || (ri == rj && i < j)
  }

  /** `parts` splits `amount`: every part is its floored share, or one more for the indices with the
      largest positive remainders. */
  ghost predicate LargestRemainder(amount: nat, ratios: seq<int>, parts: seq<int>) {
    var total := Sum(ratios);
    && |parts| == |ratios|
    && total > 0
    && Sum(parts) == amount
    && (forall i | 0 <= i < |parts| ::
          var f := Floor(amount, ratios[i], total);
          parts[i] == f || (parts[i] == f + 1 && Rem(amount, ratios[i], total) > 0))
    && (forall i, j | 0 <= i < |parts| && 0 <= j < |parts| ::
          parts[i] > Floor(amount, ratios[i], total) && parts[j] == Floor(amount, ratios[j], total)
          ==> Before(amount, ratios, total, i, j))
  }

  lemma FloorRem(amount: nat, ratio: int, total: int)
    requires total > 0
    ensures amount * ratio == Floor(amount, ratio, total) * total + Rem(amount, ratio, total)
    ensures ratio >= 0 ==> Floor(amount, ratio, total) >= 0
  {
    DivMod(amount * ratio, total);
    if ratio >= 0 {
      MulMono(0, ratio, amount);
    }
  }

  /** The floored shares and remainders account for the whole amount. */
  lemma {:induction false} SharesCover(amount: nat, ratios: seq<int>, total: int, floors: seq<int>, rems: seq<int>)
    requires total > 0 && |floors| == |rems| == |ratios|
    requires forall i | 0 <= i < |ratios| ::
               floors[i] == Floor(amount, ratios[i], total) && rems[i] == Rem(amount, ratios[i], total)
    ensures Sum(floors) * total + Sum(rems) == amount * Sum(ratios)
  {
    hide Floor, Rem;
    if ratios != [] {
      var n := |ratios| - 1;
      SharesCover(amount, ratios[..n], total, floors[..n], rems[..n]);
      FloorRem(amount, ratios[n], total);
      Distribute(Sum(floors[..n]), floors[n], total);
      Distribute(Sum(ratios[..n]), ratios[n], amount);
    }
  }

  /** The state of the hand-out loop: `parts` holds `exact` as int64, a consumed index carries -1, and
      the remainders of the others are intact. */
  ghost predicate HandingOut(amount: nat, ratios: seq<int>, total: int, exact: seq<int>, remainders: seq<int>) {
    && total > 0
    && |exact| == |remainders| == |ratios|
    && (forall i | 0 <= i < |ratios| ::
          if remainders[i] == -1
          then exact[i] == Floor(amount, ratios[i], total) + 1 && Rem(amount, ratios[i], total) > 0
          else exact[i] == Floor(amount, ratios[i], total) && remainders[i] == Rem(amount, ratios[i], total))
    && (forall i, j | 0 <= i < |ratios| && 0 <= j < |ratios| ::
          remainders[i] == -1 && remainders[j] != -1 ==> Before(amount, ratios, total, i, j))
  }

  /** Bumping the first index with the largest positive remainder keeps the loop's state. */
  lemma BumpKeepsOrder(amount: nat, ratios: seq<int>, total: int, exact: seq<int>, remainders: seq<int>, best: nat)
    requires HandingOut(amount, ratios, total, exact, remainders) && best < |ratios|
    requires remainders[best] > 0
    requires forall j | 0 <= j < |ratios| :: remainders[j] <= remainders[best]
    requires forall j | 0 <= j < best :: remainders[j] < remainders[best]
    ensures remainders[best] < total
    ensures HandingOut(amount, ratios, total, exact[best := exact[best] + 1], remainders[best := -1])
  {
    hide Floor, Rem;
  }

  lemma HandedOut(amount: nat, ratios: seq<int>, total: int, exact: seq<int>, remainders: seq<int>)
    requires HandingOut(amount, ratios, total, exact, remainders)
    requires total == Sum(ratios) && Sum(exact) == amount
    ensures LargestRemainder(amount, ratios, exact)
  {
    hide Floor, Rem;
  }

  /** The remainders not yet served, 0 where one was. */
  ghost function Unserved(remainders: seq<int>): seq<int> {
    seq(|remainders|, i requires 0 <= i < |remainders| => if remainders[i] < 0 then 0 else remainders[i])
  }

  method LargestRemaining(remainders: array<int>) returns (best: int)
    requires Sum(Unserved(remainders[..])) > 0
    ensures 0 <= best < remainders.Length && remainders[best] > 0
    ensures forall j | 0 <= j < remainders.Length :: remainders[j] <= remainders[best]
    ensures forall j | 0 <= j < best :: remainders[j] < remainders[best]
  {
    ghost var w := PositiveTerm(Unserved(remainders[..]));
    best := -1;
    var i := 0;
    while i < remainders.Length
      invariant 0 <= i <= remainders.Length
      invariant if i == 0 then best == -1 else 0 <= best < i
      invariant forall j | 0 <= j < i :: remainders[j] <= remainders[best]
      invariant forall j | 0 <= j < i && j < best :: remainders[j] < remainders[best]
    {
      if best == -1 || remainders[i] > remainders[best] {
        best := i;
      }
      i := i + 1;
    }
    assert remainders[best] >= remainders[w] > 0;
  }

  /** The floored shares and their remainders, before anything is handed out. */
  method FlooredShares(absAmt: nat, ratios: seq<int>, total: int, parts: array<int>, remainders: array<int>)
    returns (floorSum: int, ghost exact: seq<int>)
    requires total == Sum(ratios) > 0 && forall i | 0 <= i < |ratios| :: ratios[i] > 0
    requires parts.Length == remainders.Length == |ratios| && parts != remainders
    modifies parts, remainders
    ensures floorSum == Sum(exact)
    ensures HandingOut(absAmt, ratios, total, exact, remainders[..])
    ensures forall i | 0 <= i < |ratios| :: parts[i] == Wrap(exact[i]) && remainders[i] >= 0
    ensures Sum(Unserved(remainders[..])) == Times(absAmt - floorSum, total) && absAmt >= floorSum
  {
    hide Floor, Rem;
    floorSum := 0;
    exact := [];
    var k := 0;
    while k < |ratios|
      invariant 0 <= k <= |ratios| && |exact| == k
      invariant forall i | 0 <= i < k ::
                  && exact[i] == Floor(absAmt, ratios[i], total)
                  && remainders[i] == Rem(absAmt, ratios[i], total)
                  && parts[i] == Wrap(exact[i])
      invariant floorSum == Sum(exact)
    {
      var num := absAmt * ratios[k];
      var q, r := num / total, num % total;
      assert q == Floor(absAmt, ratios[k], total) && r == Rem(absAmt, ratios[k], total) by {
        FloorRem(absAmt, ratios[k], total);
        DivUnique(num, total, Floor(absAmt, ratios[k], total), Rem(absAmt, ratios[k], total));
      }
      parts[k], remainders[k] := Wrap(q), r;
      floorSum := floorSum + q;
      SumAppend(exact, q);
      exact := exact + [q];
      k := k + 1;
    }
    SharesCover(absAmt, ratios, total, exact, remainders[..]);
    assert Unserved(remainders[..]) == remainders[..];
    Distribute(absAmt, floorSum, total);
    SumNonNegative(remainders[..]);
    MulCancel(floorSum, absAmt, total);
  }

  function Times(a: int, b: int): int { a * b }

  /** One unit more than half a remainder: while units are owed the unserved remainders are positive, and
      serving one of them (each is below `total`) leaves enough for the rest. */
  lemma EnoughUnserved(leftover: int, total: int, remainders: seq<int>, best: nat)
    requires leftover > 0 && best < |remainders| && 0 < remainders[best] < total
    requires Sum(Unserved(remainders)) >= Times(leftover, total)
    ensures Sum(Unserved(remainders[best := -1])) >= Times(leftover - 1, total)
  {
    Distribute(leftover, 1, total);
    SumUpdate(Unserved(remainders), best, 0);
    assert Unserved(remainders[best := -1]) == Unserved(remainders)[best := 0];
  }

  /** Hands the leftover units out one at a time, largest remainder first. */
  method HandOut(absAmt: nat, ratios: seq<int>, total: int, extra: int, parts: array<int>, remainders: array<int>,
                 ghost floors: seq<int>)
    returns (ghost exact: seq<int>)
    requires parts.Length == remainders.Length == |ratios| == |floors| && parts != remainders
    requires total == Sum(ratios) > 0 && HandingOut(absAmt, ratios, total, floors, remainders[..])
    requires forall i | 0 <= i < |ratios| :: parts[i] == Wrap(floors[i]) && remainders[i] >= 0
    requires Sum(Unserved(remainders[..])) == Times(extra, total)
    requires extra == absAmt - Sum(floors) >= 0
    modifies parts, remainders
    ensures LargestRemainder(absAmt, ratios, exact)
    ensures forall i | 0 <= i < |ratios| :: parts[i] == Wrap(exact[i])
  {
    hide *;
    var leftover := extra;
    exact := floors;
    while leftover > 0
      invariant leftover >= 0 && leftover + Sum(exact) == absAmt && |exact| == |ratios|
      invariant HandingOut(absAmt, ratios, total, exact, remainders[..])
      invariant forall i | 0 <= i < |ratios| :: parts[i] == Wrap(exact[i])
      invariant Sum(Unserved(remainders[..])) >= Times(leftover, total)
    {
      ghost var before := remainders[..];
      TimesPositive(leftover, total);
      var best := LargestRemaining(remainders);
      BumpKeepsOrder(absAmt, ratios, total, exact, before, best);
      EnoughUnserved(leftover, total, before, best);
      SumUpdate(exact, best, exact[best] + 1);
      WrapAdd(exact[best], 1);
      exact := exact[best := exact[best] + 1];
      parts[best] := Wrap(parts[best] + 1);
      remainders[best] := -1; // consumed
      assert remainders[..] == before[best := -1];
      leftover := leftover - 1;
    }
    HandedOut(absAmt, ratios, total, exact, remainders[..]);
  }

  lemma TimesPositive(a: int, b: int)
    requires a > 0 && b > 0
    ensures Times(a, b) > 0
  {
    MulMono(1, a, b);
  }

  method PositiveTotal(ratios: seq<int>) returns (r: Option<int>)
    requires ratios != []
    ensures r == if forall i | 0 <= i < |ratios| :: ratios[i] > 0 then Some(Sum(ratios)) else None
    ensures r.Some? ==> r.value > 0
  {
    var total := 0;
    var k := 0;
    while k < |ratios|
      invariant 0 <= k <= |ratios|
      invariant forall i | 0 <= i < k :: ratios[i] > 0
      invariant total == Sum(ratios[..k]) && total >= k
    {
      if ratios[k] <= 0 {
        return None;
      }
      total := total + ratios[k];
      assert ratios[..k + 1][..k] == ratios[..k];
      k := k + 1;
    }
    assert ratios[..k] == ratios;
    return Some(total);
  }

  method NegateAll(parts: array<int>, ghost exact: seq<int>)
    requires |exact| == parts.Length
    requires forall i | 0 <= i < parts.Length :: parts[i] == Wrap(exact[i]) && 0 <= exact[i] <= -MIN_INT64
    modifies parts
    ensures forall i | 0 <= i < parts.Length :: parts[i] == -exact[i]
  {
    hide Wrap;
    var k := 0;
    while k < parts.Length
      invariant 0 <= k <= parts.Length
      invariant forall i | 0 <= i < parts.Length :: parts[i] == if i < k then -exact[i] else Wrap(exact[i])
    {
      NegateWrapped(exact[k]);
      parts[k] := Wrap(-parts[k]);
      k := k + 1;
    }
  }

  method AllocateByRatio(m: Money, ratios: seq<int>) returns (r: Result<seq<Money>, MoneyError>)
    requires InRange(m.amount) && forall i | 0 <= i < |ratios| :: InRange(ratios[i])
    ensures !m.IsSet() ==> r == Err(Unset)
    ensures m.IsSet() ==> (r == Err(BadRatio) <==> ratios == [] || exists i | 0 <= i < |ratios| :: ratios[i] <= 0)
    ensures m.IsSet() && r != Err(BadRatio) ==>
              && r.Ok?
              && |r.value| == |ratios|
              && (forall i | 0 <= i < |ratios| :: r.value[i].currency == m.currency)
              && LargestRemainder(Abs(m.amount), ratios, Magnitudes(m.amount, r.value))
  {
    hide Floor, Rem;
    if !m.IsSet() {
      return Err(Unset);
    }
    if |ratios| == 0 {
      return Err(BadRatio);
    }
    var total := PositiveTotal(ratios);
    if total.None? {
      return Err(BadRatio);
    }
    var absAmt := Abs(m.amount);
    var parts := new int[|ratios|];
    var remainders := new int[|ratios|];
    var floorSum: int;
    ghost var exact: seq<int>;
    floorSum, exact := FlooredShares(absAmt, ratios, total.value, parts, remainders);
    exact := HandOut(absAmt, ratios, total.value, absAmt - floorSum, parts, remainders, exact);
    PartsBounded(absAmt, ratios, exact);

    if m.amount < 0 {
      NegateAll(parts, exact);
    }
    var out := seq(|ratios|, i requires 0 <= i < |ratios| reads parts => Money(parts[i], m.currency));
    assert Magnitudes(m.amount, out) == exact;
    return Ok(out);
  }

  function Abs(x: int): nat { if x < 0 then -x else x }

  /** The parts of a negative amount with their sign turned. */
  function Magnitudes(amount: int, parts: seq<Money>): seq<int> {
    seq(|parts|, i requires 0 <= i < |parts| => if amount < 0 then -parts[i].amount else parts[i].amount)
  }

  lemma PartsBounded(amount: nat, ratios: seq<int>, parts: seq<int>)
    requires LargestRemainder(amount, ratios, parts) && forall i | 0 <= i < |ratios| :: ratios[i] > 0
    ensures forall i | 0 <= i < |parts| :: 0 <= parts[i] <= amount
  {
    hide Floor, Rem;
    forall i | 0 <= i < |parts| ensures parts[i] >= 0 {
      FloorRem(amount, ratios[i], Sum(ratios));
    }
    SumNonNegative(parts);
  }

  /** Negating a stored int64 that wrapped from 2^63 gives the right negative amount. */
  lemma NegateWrapped(x: int)
    requires 0 <= x <= -MIN_INT64
    ensures Wrap(-Wrap(x)) == -x
  {
    if x == -MIN_INT64 {
      WrapUnique(x, MIN_INT64, 1);
    }
  }

  /** The claim beside the division that every quotient fits an int64 holds exactly outside one case:
      MinInt64 split by a single ratio. */
  lemma QuotientFits(amount: int, ratios: seq<int>, i: nat)
    requires InRange(amount) && i < |ratios|
    requires forall j | 0 <= j < |ratios| :: 0 < ratios[j] <= MAX_INT64
    ensures Sum(ratios) > 0 &&
            (InRange(Floor(Abs(amount), ratios[i], Sum(ratios))) <==> !(amount == MIN_INT64 && |ratios| == 1))
  {
    var a, t, r := Abs(amount), Sum(ratios), ratios[i];
    SumNonNegative(ratios);
    FloorRem(a, r, t);
    hide Floor, Rem;
    if |ratios| == 1 {
      assert ratios == [] + [r];
      SumAppend([], r);
      DivUnique(a * r, r, a, 0);
      DivUnique(a * r, r, Floor(a, r, t), Rem(a, r, t));
    } else {
      assert t > r by {
        SumUpdate(ratios, i, 0);
        SumNonNegative(ratios[i := 0]);
        assert ratios[i := 0][if i == 0 then 1 else 0] > 0;
      }
      MulMono(a, MAX_INT64 + 1, r);
      MulCancel(Floor(a, r, t), MAX_INT64 + 1, t);
    }
  }

  /** Every part is strictly within one unit of its exact share amount * ratio / total, and an exact
      share is paid exactly. */
  lemma WithinOneUnit(amount: nat, ratios: seq<int>, parts: seq<int>, i: nat)
    requires LargestRemainder(amount, ratios, parts) && i < |ratios|
    ensures var t := Sum(ratios);
            && parts[i] * t - t < amount * ratios[i] < parts[i] * t + t
            && (amount * ratios[i] % t == 0 ==> parts[i] * t == amount * ratios[i])
  {
    var t := Sum(ratios);
    FloorRem(amount, ratios[i], t);
    Distribute(Floor(amount, ratios[i], t), 1, t);
    assert Rem(amount, ratios[i], t) == amount * ratios[i] % t;
    hide Floor, Rem;
  }

  /** A larger ratio never gets a smaller part. */
  lemma LargerRatioLargerPart(amount: nat, ratios: seq<int>, parts: seq<int>, i: nat, j: nat)
    requires LargestRemainder(amount, ratios, parts) && i < |ratios| && j < |ratios|
    requires ratios[i] > ratios[j]
    ensures parts[i] >= parts[j]
  {
    hide Floor, Rem;
    var t := Sum(ratios);
    FloorRem(amount, ratios[i], t);
    FloorRem(amount, ratios[j], t);
    if amount > 0 {
      Distribute(ratios[i], ratios[j], amount);
      MulMono(1, ratios[i] - ratios[j], amount);
    }
    MulCancel(Floor(amount, ratios[j], t), Floor(amount, ratios[i], t), t);
  }

  /** No other split has these properties. */
  lemma AllocationIsUnique(amount: nat, ratios: seq<int>, a: seq<int>, b: seq<int>)
    requires LargestRemainder(amount, ratios, a) && LargestRemainder(amount, ratios, b)
    ensures a == b
  {
    hide Floor, Rem;
    if exists i | 0 <= i < |a| :: a[i] > b[i] {
      var i :| 0 <= i < |a| && a[i] > b[i];
      assert forall j | 0 <= j < |a| :: a[j] >= b[j];
      SumPointwise(b, a);
    } else {
      SumPointwise(a, b);
    }
  }

  // ------------------------------------------------------------------ exact 128-bit ratio

  const BPS_SCALE: int := 10_000

  function RatioBps(part: int, whole: int): int {
    if whole <= 0 || part <= 0 then 0
    else
      var hi, lo := part * BPS_SCALE / TWO_64, part * BPS_SCALE % TWO_64;
      if hi >= whole then MAX_INT64
      else
        var q := (hi * TWO_64 + lo) / whole;
        if q > MAX_INT64 then MAX_INT64 else q
  }

  /** The 128-bit division is the floor of part * 10_000 / whole, saturated and never wrapped. */
  lemma RatioBpsIsFloor(part: int, whole: int)
    requires InRange(part) && InRange(whole)
    ensures part <= 0 || whole <= 0 ==> RatioBps(part, whole) == 0
    ensures part > 0 && whole > 0 ==>
              var q := RatioBps(part, whole);
              && 0 <= q <= MAX_INT64
              && q * whole <= part * BPS_SCALE
              && (q < MAX_INT64 ==> part * BPS_SCALE < (q + 1) * whole)
  {
    if part > 0 && whole > 0 {
      var x := part * BPS_SCALE;
      DivMod(x, TWO_64);
      DivMod(x, whole);
      Distribute(x / whole, 1, whole);
      if x / TWO_64 >= whole {
        MulMono(whole, x / TWO_64, TWO_64);
      }
      if x / whole > MAX_INT64 {
        MulMono(MAX_INT64, x / whole, whole);
      }
      MulMono(MAX_INT64, TWO_64, whole);
      SignOfQuotient(x, whole);
    }
  }

  lemma SignOfQuotient(x: nat, t: int)
    requires t > 0
    ensures x / t >= 0
  {
    DivMod(x, t);
    MulCancel(-1, x / t, t);
  }
}
