/** Double-entry posting: validation, at-most-once per business event, the canonical line text. */
module Ledger {
  import opened Common
  import opened Int64
  import opened Monetary
  import opened Seqs
  import Sorting
  import Text

  datatype Side = Debit | Credit | OtherSide

  datatype Line<+A> = Line(account: A, side: Side, amount: Money)

  datatype LedgerError = EmptyJournal | BadLine | UnknownAccount | Unbalanced | DivergentDuplicate

  /** A stored journal: its (business event key, event type) and its entries. */
  datatype Journal<+K, +A> = Journal(key: K, lines: seq<Line<A>>)

  // ------------------------------------------------------------------ amounts

  /** Debit positive, credit negative, in currency `c`. */
  function Signed<A>(l: Line<A>, c: string): int {
    if l.amount.currency != c then 0
    else match l.side
      case Debit => l.amount.amount
      case Credit => -l.amount.amount
      case OtherSide => 0
  }

  /** Debits minus credits in currency `c`. */
  function Net<A>(lines: seq<Line<A>>, c: string): int {
    if lines == [] then 0 else Net(lines[..|lines| - 1], c) + Signed(lines[|lines| - 1], c)
  }

  /** Debits minus credits of one account. */
  function Movement<A(==)>(lines: seq<Line<A>>, account: A, c: string): int {
    if lines == [] then 0
    else
      var l := lines[|lines| - 1];
      Movement(lines[..|lines| - 1], account, c) + if l.account == account then Signed(l, c) else 0
  }

  /** The balance of an account over all stored entries. */
  function AccountBalance<K, A(==)>(log: seq<Journal<K, A>>, account: A, c: string): int {
    if log == [] then 0
    else AccountBalance(log[..|log| - 1], account, c) + Movement(log[|log| - 1].lines, account, c)
  }

  // ------------------------------------------------------------------ validation

  function LineFault<A(==)>(l: Line<A>, chart: set<A>): Option<LedgerError> {
    if !l.amount.IsPositive() then Some(BadLine)
    else if l.account !in chart then Some(UnknownAccount)
    else if l.side == OtherSide then Some(BadLine)
    else None
  }

  /** The fault of the first faulty line. */
  function FirstFault<A(==)>(lines: seq<Line<A>>, chart: set<A>): Option<LedgerError> {
    if lines == [] then None
    else
      var rest := FirstFault(lines[..|lines| - 1], chart);
      if rest.Some? then rest else LineFault(lines[|lines| - 1], chart)
  }

  /** Every currency's running int64 sum ends at zero. */
  ghost predicate SumsToZero<A>(lines: seq<Line<A>>) {
    forall c: string :: Wrap(Net(lines, c)) == 0
  }

  ghost predicate Accepted<A>(lines: seq<Line<A>>, chart: set<A>) {
    |lines| >= 2 && FirstFault(lines, chart).None? && SumsToZero(lines)
  }

  ghost predicate KeyTaken<K, A>(log: seq<Journal<K, A>>, key: K) {
    exists i | 0 <= i < |log| :: log[i].key == key
  }

  ghost predicate UniqueKeys<K, A>(log: seq<Journal<K, A>>) {
    forall i, j | 0 <= i < j < |log| :: log[i].key != log[j].key
  }

  /** The checks made before any write. */
  method Validate<A(==, !new)>(lines: seq<Line<A>>, chart: set<A>) returns (fault: Option<LedgerError>)
    ensures |lines| < 2 ==> fault == Some(EmptyJournal)
    ensures |lines| >= 2 && FirstFault(lines, chart).Some? ==> fault == FirstFault(lines, chart)
    ensures |lines| >= 2 && FirstFault(lines, chart).None? && !SumsToZero(lines) ==> fault == Some(Unbalanced)
    ensures fault.None? <==> Accepted(lines, chart)
  {
    if |lines| < 2 {
      return Some(EmptyJournal);
    }
    var sums: map<string, int> := map[];
    var k := 0;
    while k < |lines|
      invariant 0 <= k <= |lines|
      invariant FirstFault(lines[..k], chart).None?
      invariant forall c: string :: Wrap(Net(lines[..k], c)) == if c in sums then sums[c] else 0
    {
      var l := lines[k];
      assert lines[..k + 1][..k] == lines[..k];
      FaultOfPrefix(lines, k + 1, chart);
      if !l.amount.IsPositive() {
        return Some(BadLine);
      }
      if l.account !in chart {
        return Some(UnknownAccount);
      }
      if l.side == OtherSide {
        return Some(BadLine);
      }
      var c := l.amount.currency;
      var was := if c in sums then sums[c] else 0;
      WrapAdd(Net(lines[..k], c), Signed(l, c));
      sums := sums[c := Wrap(if l.side == Debit then was + l.amount.amount else was - l.amount.amount)];
      k := k + 1;
    }
    assert lines[..k] == lines;
    if c :| c in sums && sums[c] != 0 {
      assert Wrap(Net(lines, c)) != 0;
      return Some(Unbalanced);
    }
    return None;
  }

  /** The journals table, with its UNIQUE (business_event_key, event_type). */
  class Store<K(==, !new), A(==, !new)> {
    var log: seq<Journal<K, A>>

    ghost predicate Valid()
      reads this
    {
      UniqueKeys(log)
    }

    constructor ()
      ensures Valid() && log == []
    {
      log := [];
    }

    /** Posts one journal: refused unless every line is good and every currency's sum is zero; a repeated
        key adds nothing, quietly when the lines are the stored ones in any order, else as an error. */
    method Post(key: K, lines: seq<Line<A>>, chart: set<A>) returns (r: Result<bool, LedgerError>)
      requires Valid()
      modifies this
      ensures Valid()
      ensures |lines| < 2 ==> r == Err(EmptyJournal)
      ensures |lines| >= 2 && FirstFault(lines, chart).Some? ==> r == Err(FirstFault(lines, chart).value)
      ensures |lines| >= 2 && FirstFault(lines, chart).None? && !SumsToZero(lines) ==> r == Err(Unbalanced)
      ensures Accepted(lines, chart) && !old(KeyTaken(log, key)) ==>
                r == Ok(true) && log == old(log) + [Journal(key, lines)]
      ensures Accepted(lines, chart) && old(KeyTaken(log, key)) ==>
                exists i | 0 <= i < |old(log)| :: old(log)[i].key == key
                  && r == if multiset(old(log)[i].lines) == multiset(lines) then Ok(false) else Err(DivergentDuplicate)
      ensures r != Ok(true) ==> log == old(log)
    {
      var fault := Validate(lines, chart);
      if fault.Some? {
        return Err(fault.value);
      }
      var i := 0;
      while i < |log|
        invariant 0 <= i <= |log|
        invariant forall j | 0 <= j < i :: log[j].key != key
      {
        if log[i].key == key {
          return if multiset(log[i].lines) == multiset(lines) then Ok(false) else Err(DivergentDuplicate);
        }
        i := i + 1;
      }
      log := log + [Journal(key, lines)];
      return Ok(true);
    }
  }

  /** A fault in a prefix is the fault of the whole. */
  lemma {:induction false} FaultOfPrefix<A>(lines: seq<Line<A>>, k: nat, chart: set<A>)
    requires k <= |lines|
    ensures FirstFault(lines[..k], chart).Some? ==> FirstFault(lines, chart) == FirstFault(lines[..k], chart)
    decreases |lines| - k
  {
    if k == |lines| {
      assert lines[..k] == lines;
    } else {
      assert lines[..k + 1][..k] == lines[..k];
      FaultOfPrefix(lines, k + 1, chart);
    }
  }

  // ------------------------------------------------------------------ balance

  /** An accepted journal's true net is a multiple of 2^64, so it really balances exactly when its net
      stays below 2^64 in magnitude. */
  lemma AcceptedBalances<A>(lines: seq<Line<A>>, chart: set<A>, c: string)
    requires Accepted(lines, chart)
    ensures Net(lines, c) % TWO_64 == 0
    ensures Net(lines, c) == 0 <==> -TWO_64 < Net(lines, c) < TWO_64
  {
    assert Wrap(Net(lines, c)) == 0;
  }

  /** The unchecked sums let a journal with only debits through: 2^63-1 twice and 2. */
  lemma UnboundedSumsWrap()
    ensures var a := Money(MAX_INT64, "NGN");
            var lines := [Line(0, Debit, a), Line(0, Debit, a), Line(0, Debit, Money(2, "NGN"))];
            Accepted(lines, {0}) && Net(lines, "NGN") == TWO_64
  {
    var a := Money(MAX_INT64, "NGN");
    var l0, l1, l2 := Line(0, Debit, a), Line(0, Debit, a), Line(0, Debit, Money(2, "NGN"));
    var lines := [l0, l1, l2];
    assert lines[..2] == [l0, l1] && [l0, l1][..1] == [l0] && [l0][..0] == lines[..0];
    forall c: string ensures Net(lines, c) == if c == "NGN" then TWO_64 else 0 {
      assert Net([l0], c) == Signed(l0, c);
      assert Net([l0, l1], c) == Signed(l0, c) + Signed(l1, c);
      assert Net(lines, c) == Net(lines[..2], c) + Signed(l2, c);
    }
    WrapUnique(TWO_64, 0, 1);
    assert FirstFault([l0], {0}).None? && FirstFault([l0, l1], {0}).None?;
  }

  /** The sum over a finite set of accounts of what one journal moves on each. */
  ghost function SumOfMovements<A>(lines: seq<Line<A>>, accounts: set<A>, c: string): int {
    if accounts == {} then 0
    else
      var a :| a in accounts;
      Movement(lines, a, c) + SumOfMovements(lines, accounts - {a}, c)
  }

  /** The sum of the balances of a finite set of accounts. */
  ghost function SumOfBalances<K, A>(log: seq<Journal<K, A>>, accounts: set<A>, c: string): int {
    if accounts == {} then 0
    else
      var a :| a in accounts;
      AccountBalance(log, a, c) + SumOfBalances(log, accounts - {a}, c)
  }

  lemma {:induction false} MovementsExtract<A>(lines: seq<Line<A>>, accounts: set<A>, a: A, c: string)
    requires a in accounts
    ensures SumOfMovements(lines, accounts, c) == Movement(lines, a, c) + SumOfMovements(lines, accounts - {a}, c)
    decreases accounts
  {
    var b :| b in accounts && SumOfMovements(lines, accounts, c)
              == Movement(lines, b, c) + SumOfMovements(lines, accounts - {b}, c);
    if a != b {
      MovementsExtract(lines, accounts - {b}, a, c);
      MovementsExtract(lines, accounts - {a}, b, c);
      assert accounts - {b} - {a} == accounts - {a} - {b};
    }
  }

  lemma {:induction false} MovementsOfLine<A>(lines: seq<Line<A>>, l: Line<A>, accounts: set<A>, c: string)
    ensures SumOfMovements(lines + [l], accounts, c)
            == SumOfMovements(lines, accounts, c) + if l.account in accounts then Signed(l, c) else 0
    decreases accounts
  {
    if accounts != {} {
      var a :| a in accounts;
      MovementsExtract(lines, accounts, a, c);
      MovementsExtract(lines + [l], accounts, a, c);
      assert (lines + [l])[..|lines|] == lines;
      MovementsOfLine(lines, l, accounts - {a}, c);
    }
  }

  /** Over a set holding every account used, the movements add up to the journal's net. */
  lemma {:induction false} MovementsCoverNet<A>(lines: seq<Line<A>>, accounts: set<A>, c: string)
    requires forall i | 0 <= i < |lines| :: lines[i].account in accounts
    ensures SumOfMovements(lines, accounts, c) == Net(lines, c)
  {
    if lines == [] {
      NoMovements(lines, accounts, c);
    } else {
      var n := |lines| - 1;
      assert lines == lines[..n] + [lines[n]];
      MovementsCoverNet(lines[..n], accounts, c);
      MovementsOfLine(lines[..n], lines[n], accounts, c);
    }
  }

  lemma {:induction false} NoMovements<A>(lines: seq<Line<A>>, accounts: set<A>, c: string)
    requires lines == []
    ensures SumOfMovements(lines, accounts, c) == 0
    decreases accounts
  {
    if accounts != {} {
      var a :| a in accounts;
      MovementsExtract(lines, accounts, a, c);
      NoMovements(lines, accounts - {a}, c);
    }
  }

  lemma {:induction false} BalancesExtract<K, A>(log: seq<Journal<K, A>>, accounts: set<A>, a: A, c: string)
    requires a in accounts
    ensures SumOfBalances(log, accounts, c) == AccountBalance(log, a, c) + SumOfBalances(log, accounts - {a}, c)
    decreases accounts
  {
    var b :| b in accounts && SumOfBalances(log, accounts, c)
              == AccountBalance(log, b, c) + SumOfBalances(log, accounts - {b}, c);
    if a != b {
      BalancesExtract(log, accounts - {b}, a, c);
      BalancesExtract(log, accounts - {a}, b, c);
      assert accounts - {b} - {a} == accounts - {a} - {b};
    }
  }

  lemma {:induction false} BalancesOfJournal<K, A>(log: seq<Journal<K, A>>, j: Journal<K, A>, accounts: set<A>, c: string)
    ensures SumOfBalances(log + [j], accounts, c)
            == SumOfBalances(log, accounts, c) + SumOfMovements(j.lines, accounts, c)
    decreases accounts
  {
    if accounts != {} {
      var a :| a in accounts;
      BalancesExtract(log, accounts, a, c);
      BalancesExtract(log + [j], accounts, a, c);
      MovementsExtract(j.lines, accounts, a, c);
      assert (log + [j])[..|log|] == log;
      BalancesOfJournal(log, j, accounts - {a}, c);
    }
  }

  /** When every stored journal balances, the balances of all accounts together are zero. */
  lemma {:induction false} BooksClose<K, A>(log: seq<Journal<K, A>>, accounts: set<A>, c: string)
    requires forall i | 0 <= i < |log| :: Net(log[i].lines, c) == 0
    requires forall i, k | 0 <= i < |log| && 0 <= k < |log[i].lines| :: log[i].lines[k].account in accounts
    ensures SumOfBalances(log, accounts, c) == 0
  {
    if log == [] {
      NoBalances(log, accounts, c);
    } else {
      var n := |log| - 1;
      assert log == log[..n] + [log[n]];
      BooksClose(log[..n], accounts, c);
      BalancesOfJournal(log[..n], log[n], accounts, c);
      MovementsCoverNet(log[n].lines, accounts, c);
    }
  }

  lemma {:induction false} NoBalances<K, A>(log: seq<Journal<K, A>>, accounts: set<A>, c: string)
    requires log == []
    ensures SumOfBalances(log, accounts, c) == 0
    decreases accounts
  {
    if accounts != {} {
      var a :| a in accounts;
      BalancesExtract(log, accounts, a, c);
      NoBalances(log, accounts - {a}, c);
    }
  }

  // ------------------------------------------------------------------ runs of posts

  datatype PostCmd<+K, +A> = PostCmd(key: K, lines: seq<Line<A>>)

  /** What Store.Post leaves in the table. */
  ghost function AfterPost<K, A>(log: seq<Journal<K, A>>, p: PostCmd<K, A>, chart: set<A>): seq<Journal<K, A>> {
    if Accepted(p.lines, chart) && !KeyTaken(log, p.key) then log + [Journal(p.key, p.lines)] else log
  }

  ghost function AfterPosts<K, A>(log: seq<Journal<K, A>>, ps: seq<PostCmd<K, A>>, chart: set<A>): seq<Journal<K, A>> {
    if ps == [] then log else AfterPost(AfterPosts(log, ps[..|ps| - 1], chart), ps[|ps| - 1], chart)
  }

  /** After any run of posts whose journals each net below 2^64, every stored journal balances in every
      currency, all accounts together sum to zero, and no business event is stored twice. */
  lemma {:induction false} RunsKeepTheBooks<K, A>(ps: seq<PostCmd<K, A>>, chart: set<A>, c: string)
    requires forall i | 0 <= i < |ps| :: -TWO_64 < Net(ps[i].lines, c) < TWO_64
    ensures var log := AfterPosts([], ps, chart);
            && UniqueKeys(log)
            && (forall i | 0 <= i < |log| :: Net(log[i].lines, c) == 0)
            && SumOfBalances(log, chart, c) == 0
  {
    StoredFromPosts(ps, chart, c);
    BooksClose(AfterPosts([], ps, chart), chart, c);
  }

  lemma {:induction false} StoredFromPosts<K, A>(ps: seq<PostCmd<K, A>>, chart: set<A>, c: string)
    requires forall i | 0 <= i < |ps| :: -TWO_64 < Net(ps[i].lines, c) < TWO_64
    ensures var log := AfterPosts([], ps, chart);
            && UniqueKeys(log)
            && (forall i | 0 <= i < |log| :: Net(log[i].lines, c) == 0)
            && (forall i, k | 0 <= i < |log| && 0 <= k < |log[i].lines| :: log[i].lines[k].account in chart)
  {
    if ps != [] {
      var p := ps[|ps| - 1];
      StoredFromPosts(ps[..|ps| - 1], chart, c);
      if Accepted(p.lines, chart) {
        AcceptedBalances(p.lines, chart, c);
        AccountsOnChart(p.lines, chart);
      }
    }
  }

  lemma {:induction false} AccountsOnChart<A>(lines: seq<Line<A>>, chart: set<A>)
    requires FirstFault(lines, chart).None?
    ensures forall k | 0 <= k < |lines| :: lines[k].account in chart && lines[k].amount.IsPositive()
  {
    if lines != [] {
      AccountsOnChart(lines[..|lines| - 1], chart);
    }
  }

  // ------------------------------------------------------------------ the canonical text

  function SideText(s: Side): string {
    match s
    case Debit => "DEBIT"
    case Credit => "CREDIT"
    case OtherSide => ""
  }

  function LineText(l: Line<string>): string {
    l.account + "|" + SideText(l.side) + "|" + l.amount.currency + "|" + Text.FormatInt(l.amount.amount)
  }

  function LineTexts(lines: seq<Line<string>>): seq<string> {
    seq(|lines|, i requires 0 <= i < |lines| => LineText(lines[i]))
  }

  /** The text whose SHA-256 is stored with a journal: the line texts sorted, one a row. */
  function Canonical(lines: seq<Line<string>>): string {
    Text.JoinLines(Sorting.Sort(Sorting.StringLe, LineTexts(lines)))
  }

  predicate Postable(l: Line<string>) {
    l.side != OtherSide && ValidCurrency(l.amount.currency)
  }

  lemma LineTextInjective(x: Line<string>, y: Line<string>)
    requires Postable(x) && Postable(y) && LineText(x) == LineText(y)
    ensures x == y
  {
    var xa, ya := Text.FormatInt(x.amount.amount), Text.FormatInt(y.amount.amount);
    Text.FormatFree(x.amount.amount, '|');
    Text.FormatFree(y.amount.amount, '|');
    var x1, y1 := x.account + "|" + SideText(x.side), y.account + "|" + SideText(y.side);
    var x2, y2 := x1 + "|" + x.amount.currency, y1 + "|" + y.amount.currency;
    assert LineText(x) == x2 + ['|'] + xa && LineText(y) == y2 + ['|'] + ya;
    Text.LastSeparator(x2, xa, y2, ya, '|');
    Text.FormatInjective(x.amount.amount, y.amount.amount);
    assert '|' !in x.amount.currency && '|' !in y.amount.currency;
    Text.LastSeparator(x1, x.amount.currency, y1, y.amount.currency, '|');
    assert '|' !in SideText(x.side) && '|' !in SideText(y.side);
    Text.LastSeparator(x.account, SideText(x.side), y.account, SideText(y.side), '|');
    assert |SideText(Debit)| != |SideText(Credit)|;
  }

  /** No code of the chart starts with the whole text of a line on the chart and a line break. */
  ghost predicate NoHiddenLine(chart: set<string>) {
    forall l: Line<string>, code | Postable(l) && l.account in chart && code in chart :: !(LineText(l) + "\n" <= code)
  }

  ghost predicate OnChart(lines: seq<Line<string>>, chart: set<string>) {
    forall i | 0 <= i < |lines| :: Postable(lines[i]) && lines[i].account in chart
  }

  /** A line break in a line's text stands in its account code. */
  lemma BreakInCode(x: Line<string>, t: string)
    requires Postable(x) && t + "\n" <= LineText(x)
    ensures t + "\n" <= x.account
  {
    Text.FormatFree(x.amount.amount, '\n');
    var tail := "|" + SideText(x.side) + "|" + x.amount.currency + "|" + Text.FormatInt(x.amount.amount);
    LineTextOf(x);
    assert LineText(x) == x.account + tail && '\n' !in tail;
    BreakSomewhere(t, x.account, tail);
  }

  lemma BreakSomewhere(t: string, code: string, tail: string)
    requires t + "\n" <= code + tail
    ensures t + "\n" <= code || '\n' in tail
  {
    var s := code + tail;
    assert s[|t|] == (t + "\n")[|t|] == '\n';
    if |t| < |code| {
      assert code[..|t| + 1] == s[..|t| + 1] == t + "\n";
    } else {
      assert tail[|t| - |code|] == s[|t|];
    }
  }

  lemma TextsOfRest(a: seq<Line<string>>, k: nat)
    requires k < |a|
    ensures LineTexts(RemoveAt(a, k)) == RemoveAt(LineTexts(a), k)
  {
  }

  /** Equal multisets of texts come from equal multisets of lines. */
  lemma {:induction false} TextsDetermineLines(a: seq<Line<string>>, b: seq<Line<string>>)
    requires forall i | 0 <= i < |a| :: Postable(a[i])
    requires forall i | 0 <= i < |b| :: Postable(b[i])
    requires multiset(LineTexts(a)) == multiset(LineTexts(b))
    ensures multiset(a) == multiset(b)
    decreases |a|
  {
    hide LineText, Postable;
    assert |a| == |multiset(LineTexts(a))| == |multiset(LineTexts(b))| == |b|;
    if a != [] {
      var k := MatchFirst(LineTexts(a), LineTexts(b));
      LineTextInjective(a[0], b[k]);
      TextsOfRest(a, 0);
      TextsOfRest(b, k);
      TextsDetermineLines(RemoveAt(a, 0), RemoveAt(b, k));
      RemoveAtMultiset(a, 0);
      RemoveAtMultiset(b, k);
    }
  }

  lemma {:induction false} LinesDetermineTexts(a: seq<Line<string>>, b: seq<Line<string>>)
    requires multiset(a) == multiset(b)
    ensures multiset(LineTexts(a)) == multiset(LineTexts(b))
    decreases |a|
  {
    hide LineText;
    assert |a| == |multiset(a)| == |multiset(b)| == |b|;
    if a != [] {
      var k := MatchFirst(a, b);
      TextsOfRest(a, 0);
      TextsOfRest(b, k);
      LinesDetermineTexts(RemoveAt(a, 0), RemoveAt(b, k));
      RemoveAtMultiset(LineTexts(a), 0);
      RemoveAtMultiset(LineTexts(b), k);
    }
  }

  /** The canonical texts agree exactly when the journals hold the same lines, whatever their order: on any
      chart in which no code hides a line, line breaks or not. */
  lemma CanonicalIsMultiset(a: seq<Line<string>>, b: seq<Line<string>>, chart: set<string>)
    requires NoHiddenLine(chart) && OnChart(a, chart) && OnChart(b, chart)
    ensures Canonical(a) == Canonical(b) <==> multiset(a) == multiset(b)
  {
    hide LineText, LineTexts, Postable, NoHiddenLine, Sorting.Sort, Text.JoinLines, Text.Separable;
    var sa, sb := Sorting.Sort(Sorting.StringLe, LineTexts(a)), Sorting.Sort(Sorting.StringLe, LineTexts(b));
    Sorting.StringOrder();
    Sorting.SortSorts(Sorting.StringLe, LineTexts(a));
    Sorting.SortSorts(Sorting.StringLe, LineTexts(b));
    if multiset(a) == multiset(b) {
      LinesDetermineTexts(a, b);
      Sorting.SortOfPermutation(Sorting.StringLe, LineTexts(a), LineTexts(b));
    }
    if Canonical(a) == Canonical(b) {
      SortedTextsSeparate(a, b, chart);
      Text.JoinInjective(sa, sb);
      TextsDetermineLines(a, b);
    }
  }

  lemma SortedTextsSeparate(a: seq<Line<string>>, b: seq<Line<string>>, chart: set<string>)
    requires NoHiddenLine(chart) && OnChart(a, chart) && OnChart(b, chart)
    ensures Text.Separable(Sorting.Sort(Sorting.StringLe, LineTexts(a)), Sorting.Sort(Sorting.StringLe, LineTexts(b)))
  {
    hide LineText, Postable, Sorting.Sort, NoHiddenLine;
    var sa, sb := Sorting.Sort(Sorting.StringLe, LineTexts(a)), Sorting.Sort(Sorting.StringLe, LineTexts(b));
    forall i, j | 0 <= i < |sa| && 0 <= j < |sb|
      ensures !(sa[i] + "\n" <= sb[j]) && !(sb[j] + "\n" <= sa[i])
    {
      var x := TextFrom(a, i);
      var y := TextFrom(b, j);
      LinesSeparate(x, y, chart);
      LinesSeparate(y, x, chart);
    }
    forall i | 0 <= i < |sa| ensures sa[i] != "" {
      var x := TextFrom(a, i);
      LineTextOf(x);
    }
    forall i | 0 <= i < |sb| ensures sb[i] != "" {
      var x := TextFrom(b, i);
      LineTextOf(x);
    }
  }

  lemma TextFrom(a: seq<Line<string>>, i: nat) returns (x: Line<string>)
    requires i < |Sorting.Sort(Sorting.StringLe, LineTexts(a))|
    ensures x in a && Sorting.Sort(Sorting.StringLe, LineTexts(a))[i] == LineText(x)
  {
    hide LineText, Sorting.Sort;
    var s := Sorting.Sort(Sorting.StringLe, LineTexts(a));
    Sorting.StringOrder();
    Sorting.SortSorts(Sorting.StringLe, LineTexts(a));
    assert s[i] in multiset(LineTexts(a));
    var k :| 0 <= k < |a| && LineTexts(a)[k] == s[i];
    x := a[k];
  }

  lemma LinesSeparate(x: Line<string>, y: Line<string>, chart: set<string>)
    requires NoHiddenLine(chart) && Postable(x) && Postable(y) && x.account in chart && y.account in chart
    ensures !(LineText(x) + "\n" <= LineText(y))
  {
    hide LineText, Postable;
    if LineText(x) + "\n" <= LineText(y) {
      BreakInCode(y, LineText(x));
    }
  }

  lemma BreakInside(t: string, code: string)
    ensures t + "\n" <= code ==> '\n' in code
  {
    if t + "\n" <= code {
      assert code[|t|] == (t + "\n")[|t|];
    }
  }

  /** In particular on every chart whose codes hold no line break. */
  lemma PlainChart(chart: set<string>)
    requires forall code | code in chart :: '\n' !in code
    ensures NoHiddenLine(chart)
  {
    forall l: Line<string>, code | Postable(l) && l.account in chart && code in chart ensures !(LineText(l) + "\n" <= code) {
      BreakInside(LineText(l), code);
    }
  }

  lemma SortOfSorted(s: seq<string>)
    requires Sorting.SortedBy(Sorting.StringLe, s)
    ensures Sorting.Sort(Sorting.StringLe, s) == s
  {
    Sorting.StringOrder();
    Sorting.SortSorts(Sorting.StringLe, s);
    Sorting.SortedUnique(Sorting.StringLe, Sorting.Sort(Sorting.StringLe, s), s);
  }

  lemma AscendingByFirst(s: seq<string>)
    requires forall i | 0 <= i < |s| :: s[i] != ""
    requires forall i, j | 0 <= i < j < |s| :: s[i][0] < s[j][0]
    ensures Sorting.Sort(Sorting.StringLe, s) == s
  {
    forall i, j | 0 <= i < j < |s| ensures Sorting.StringLe(s[i], s[j]) {
    }
    SortOfSorted(s);
  }

  /** Two whole lines hidden in a third line's account code leave the canonical text unchanged. */
  lemma HiddenLines(l0: Line<string>, l1: Line<string>, l2: Line<string>, l3: Line<string>, x: Line<string>)
    requires x == Line(LineText(l0) + "\n" + LineText(l1) + "\n" + l2.account, l2.side, l2.amount)
    requires l0.account != "" && l1.account != "" && l2.account != "" && l3.account != ""
    requires l0.account[0] < l1.account[0] < l2.account[0] < l3.account[0]
    ensures Canonical([l0, l1, l2, l3]) == Canonical([x, l3])
  {
    var t0, t1, t2, t3 := LineText(l0), LineText(l1), LineText(l2), LineText(l3);
    LineTextOf(l0);
    LineTextOf(l1);
    LineTextOf(l2);
    LineTextOf(l3);
    LineTextOf(x);
    hide LineText, Sorting.Sort, Sorting.StringLe, Text.JoinLines, SideText, Text.FormatInt;
    assert LineTexts([l0, l1, l2, l3]) == [t0, t1, t2, t3] && LineTexts([x, l3]) == [LineText(x), t3];
    AscendingByFirst([t0, t1, t2, t3]);
    AscendingByFirst([LineText(x), t3]);
    assert LineText(x) == t0 + "\n" + t1 + "\n" + t2;
    JoinOfFour(t0, t1, t2, t3);
  }

  function LineTail(l: Line<string>): string {
    "|" + SideText(l.side) + "|" + l.amount.currency + "|" + Text.FormatInt(l.amount.amount)
  }

  lemma LineTextOf(l: Line<string>)
    ensures LineText(l) == l.account + LineTail(l) && LineText(l) != ""
    ensures l.account != "" ==> LineText(l)[0] == l.account[0]
  {
    hide Text.FormatInt, SideText;
  }

  /** An account code that does start with a line and a line break, which the chart's validator lets through,
      makes two different balanced journals share one canonical text: a re-post with other lines then passes for
      an honest retry. */
  lemma LineBreakClash()
    ensures exists a: seq<Line<string>>, b: seq<Line<string>> ::
              && Canonical(a) == Canonical(b) && multiset(a) != multiset(b)
              && |a| == 4 && |b| == 2 && Net(a, "NGN") == Net(b, "NGN") == 0
  {
    hide *;
    var five, three := Money(5, "NGN"), Money(3, "NGN");
    var l0, l1 := Line("A", Debit, five), Line("B", Credit, five);
    var l2, l3 := Line("C", Debit, three), Line("E", Credit, three);
    var x := Line(LineText(l0) + "\n" + LineText(l1) + "\n" + l2.account, Debit, three);
    HiddenLines(l0, l1, l2, l3, x);
    var a, b := [l0, l1, l2, l3], [x, l3];
    assert |multiset(a)| == 4 && |multiset(b)| == 2;
    NetOfPair(l0, l1, l2, l3);
    NetOfTwo(x, l3);
    SignedOf(five, three, "A", "B", "C", "E", x.account);
  }

  lemma SignedOf(m: Money, n: Money, a: string, b: string, c: string, e: string, x: string)
    requires m.currency == n.currency == "NGN"
    ensures Signed(Line(a, Debit, m), "NGN") + Signed(Line(b, Credit, m), "NGN") == 0
    ensures Signed(Line(c, Debit, n), "NGN") + Signed(Line(e, Credit, n), "NGN") == 0
    ensures Signed(Line(x, Debit, n), "NGN") + Signed(Line(e, Credit, n), "NGN") == 0
  {
  }

  lemma NetOfTwo(l0: Line<string>, l1: Line<string>)
    ensures forall c: string :: Net([l0, l1], c) == Signed(l0, c) + Signed(l1, c)
  {
    assert [l0, l1][..1] == [l0];
    forall c: string ensures Net([l0, l1], c) == Signed(l0, c) + Signed(l1, c) {
      assert Net([l0], c) == Signed(l0, c);
    }
  }

  lemma NetOfPair(l0: Line<string>, l1: Line<string>, l2: Line<string>, l3: Line<string>)
    ensures forall c: string :: Net([l0, l1, l2, l3], c) == Signed(l0, c) + Signed(l1, c) + Signed(l2, c) + Signed(l3, c)
  {
    assert [l0, l1, l2, l3][..3] == [l0, l1, l2] && [l0, l1, l2][..2] == [l0, l1] && [l0, l1][..1] == [l0];
    forall c: string
      ensures Net([l0, l1, l2, l3], c) == Signed(l0, c) + Signed(l1, c) + Signed(l2, c) + Signed(l3, c)
    {
      assert Net([l0], c) == Signed(l0, c);
      assert Net([l0, l1], c) == Signed(l0, c) + Signed(l1, c);
      assert Net([l0, l1, l2], c) == Net([l0, l1], c) + Signed(l2, c);
    }
  }

  lemma JoinOfFour(t0: string, t1: string, t2: string, t3: string)
    ensures Text.JoinLines([t0, t1, t2, t3]) == Text.JoinLines([t0 + "\n" + t1 + "\n" + t2, t3])
  {
    assert [t0, t1, t2, t3][1..] == [t1, t2, t3] && [t1, t2, t3][1..] == [t2, t3] && [t2, t3][1..] == [t3];
    assert Text.JoinLines([t2, t3]) == t2 + "\n" + t3;
    assert Text.JoinLines([t1, t2, t3]) == t1 + "\n" + (t2 + "\n" + t3);
    assert Text.JoinLines([t0, t1, t2, t3]) == t0 + "\n" + (t1 + "\n" + (t2 + "\n" + t3));
    var x := t0 + "\n" + t1 + "\n" + t2;
    assert [x, t3][1..] == [t3];
    assert Text.JoinLines([x, t3]) == x + "\n" + t3;
  }
}
