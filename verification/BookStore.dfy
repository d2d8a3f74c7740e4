/** The credit book in place: its tables as fields, each SQL statement and each transaction as a method
    that does what the pure step says. */
module BookStore {
  import opened BookSteps
  import opened BookTables
  import opened Common
  import opened Ledger
  import opened Monetary
  import opened Templates

  function Naira(amount: int): Money { Money(amount, CURRENCY) }

  /** The configured waterfall. */
  function Waterfall(feeFirst: bool): seq<Component> {
    if feeFirst then [FeePart, PrincipalPart] else [PrincipalPart, FeePart]
  }

  /** What a map of sums holds for a component, absent meaning zero. */
  function SumOf(sums: map<Component, int>, c: Component): int {
    if c in sums then sums[c] else 0
  }

  class Tables {
    var pools: seq<Pool>
    var advances: seq<Advance>
    var ingested: map<Id, Ingested>
    var events: map<Id, Event>
    var allocs: seq<Alloc>
    var suspense: map<Id, int>
    var reversals: map<Id, Reversal>
    var parked: seq<Parked>
    var writeOffs: seq<WriteOff>
    var journals: seq<Journal<JournalKey, Account>>

    function Contents(): Book
      reads this
    {
      Book(pools, advances, ingested, events, allocs, suspense, reversals, parked, writeOffs, journals)
    }

    /** The UNIQUE constraint on journals. */
    ghost predicate Valid()
      reads `journals
    {
      UniqueKeys(journals)
    }

    /** The tables hold what the step returns, or the step's error is raised. */
    ghost predicate Follows(step: Result<Book, BookError>, r: Result<(), BookError>)
      reads this
    {
      match step
      case Ok(b) => r == Ok(()) && Contents() == b
      case Err(e) => r == Err(e)
    }

    constructor (funded: seq<Pool>)
      ensures Valid() && Contents() == Book(funded, [], map[], map[], [], map[], map[], [], [], [])
    {
      pools, advances, ingested, events, allocs := funded, [], map[], map[], [];
      suspense, reversals, parked, writeOffs, journals := map[], map[], [], [], [];
    }

    method Rollback(b: Book)
      requires UniqueKeys(b.journals)
      modifies this
      ensures Valid() && Contents() == b
    {
      pools, advances, ingested, events, allocs := b.pools, b.advances, b.ingested, b.events, b.allocs;
      suspense, reversals, parked, writeOffs, journals := b.suspense, b.reversals, b.parked, b.writeOffs, b.journals;
    }

    // ---------------------------------------------------------------- funding_pools

    method WritePool(p: Id, q: Pool) returns (r: Result<(), BookError>)
      requires p < |pools|
      modifies `pools
      ensures Follows(BookTables.WritePool(old(Contents()), p, q), r)
    {
      if !q.Fits() {
        return Err(PoolOverAllocated);
      }
      pools := pools[p := q];
      return Ok(());
    }

    /** The first active pool of the programme, in key order, with headroom. */
    method Reserve(programme: Id, amount: int) returns (r: Result<Id, BookError>)
      modifies `pools
      ensures match BookTables.Reserve(old(Contents()), programme, amount)
              case Ok((b, p)) => r == Ok(p) && Contents() == b
              case Err(e) => r == Err(e)
    {
      var p := 0;
      while p < |pools| && !HasHeadroom(pools[p], programme, amount)
        invariant 0 <= p <= |pools|
        invariant PoolWithHeadroom(pools[..p], programme, amount) == None
      {
        assert pools[..p + 1][..p] == pools[..p];
        p := p + 1;
      }
      FirstPoolFound(pools, p, programme, amount);
      if p == |pools| {
        return Err(NoFundingCapacity);
      }
      var _ :- WritePool(p, pools[p].(reserved := pools[p].reserved + amount));
      return Ok(p);
    }

    method ConfirmUtilisation(p: Option<Id>, amount: int) returns (r: Result<(), BookError>)
      modifies `pools
      ensures Follows(BookTables.ConfirmUtilisation(old(Contents()), p, amount), r)
    {
      if p.None? || p.value >= |pools| || pools[p.value].reserved < amount {
        return Err(ReservationUnderflow);
      }
      var q := pools[p.value];
      r := WritePool(p.value, q.(reserved := q.reserved - amount, utilised := q.utilised + amount));
    }

    method Release(p: Option<Id>, amount: int) returns (r: Result<(), BookError>)
      modifies `pools
      ensures Follows(BookTables.Release(old(Contents()), p, amount), r)
    {
      if p.None? || p.value >= |pools| || pools[p.value].reserved < amount {
        return Err(ReservationUnderflow);
      }
      var q := pools[p.value];
      r := WritePool(p.value, q.(reserved := q.reserved - amount));
    }

    method ReduceUtilisation(p: Option<Id>, amount: int) returns (r: Result<(), BookError>)
      modifies `pools
      ensures Follows(BookTables.ReduceUtilisation(old(Contents()), p, amount), r)
    {
      if p.None? || p.value >= |pools| || pools[p.value].utilised < amount {
        return Err(UtilisationUnderflow);
      }
      var q := pools[p.value];
      r := WritePool(p.value, q.(utilised := q.utilised - amount));
    }

    method ReAddUtilisation(p: Option<Id>, amount: int) returns (r: Result<(), BookError>)
      modifies `pools
      ensures Follows(BookTables.ReAddUtilisation(old(Contents()), p, amount), r)
    {
      if p.None? || p.value >= |pools| {
        return Err(NotFound);
      }
      var q := pools[p.value];
      r := WritePool(p.value, q.(utilised := q.utilised + amount));
    }

    // ---------------------------------------------------------------- advances and attempts

    method IsSlotTaken(a: Id, subscriber: Id) returns (taken: bool)
      ensures taken == SlotTaken(Contents(), a, subscriber)
    {
      var i := 0;
      while i < |advances|
        invariant 0 <= i <= |advances|
        invariant forall j | 0 <= j < i :: !(j != a && advances[j].subscriber == subscriber && IsOpen(advances[j].state))
      {
        if i != a && advances[i].subscriber == subscriber && IsOpen(advances[i].state) {
          return true;
        }
        i := i + 1;
      }
      return false;
    }

    method InsertAdvance(adv: Advance) returns (r: Result<Id, BookError>)
      modifies `advances
      ensures match BookTables.InsertAdvance(old(Contents()), adv)
              case Ok((b, a)) => r == Ok(a) && Contents() == b && a < |advances|
              case Err(e) => r == Err(e)
    {
      var taken := IsSlotTaken(|advances|, adv.subscriber);
      if IsOpen(adv.state) && taken {
        return Err(ConcurrentAdvance);
      }
      if adv.outstanding < 0 {
        return Err(CheckViolation);
      }
      advances := advances + [adv];
      return Ok(|advances| - 1);
    }

    method WriteAdvance(a: Id, version: nat, from: AdvanceState, adv: Advance) returns (r: Result<(), BookError>)
      modifies `advances
      ensures Follows(BookTables.WriteAdvance(old(Contents()), a, version, from, adv), r)
      ensures |advances| == |old(advances)|
    {
      if a >= |advances| || advances[a].version != version || advances[a].state != from {
        return Err(StaleVersion);
      }
      var taken := IsSlotTaken(a, adv.subscriber);
      if IsOpen(adv.state) && taken {
        return Err(ConcurrentAdvance);
      }
      if adv.outstanding < 0 {
        return Err(CheckViolation);
      }
      advances := advances[a := adv.(version := version + 1)];
      return Ok(());
    }

    method Transition(a: Id, version: nat, from: AdvanceState, to: AdvanceState) returns (r: Result<(), BookError>)
      modifies `advances
      ensures Follows(BookTables.Transition(old(Contents()), a, version, from, to), r)
      ensures |advances| == |old(advances)|
    {
      if !CanTransition(from, to) {
        return Err(IllegalTransition);
      }
      if a >= |advances| {
        return Err(StaleVersion);
      }
      r := WriteAdvance(a, version, from, advances[a].(state := to));
    }

    method ReserveTransition(a: Id, version: nat, p: Id) returns (r: Result<(), BookError>)
      modifies `advances
      ensures Follows(BookTables.ReserveTransition(old(Contents()), a, version, p), r)
      ensures |advances| == |old(advances)|
    {
      if a >= |advances| {
        return Err(StaleVersion);
      }
      r := WriteAdvance(a, version, Validated, advances[a].(state := ExposureReserved, pool := Some(p)));
    }

    method SetOutstanding(a: Id, version: nat, from: AdvanceState, to: AdvanceState, outstanding: int)
      returns (r: Result<(), BookError>)
      modifies `advances
      ensures Follows(BookTables.SetOutstanding(old(Contents()), a, version, from, to, outstanding), r)
      ensures |advances| == |old(advances)|
    {
      if !CanTransition(from, to) && from != to {
        return Err(IllegalTransition);
      }
      if a >= |advances| {
        return Err(StaleVersion);
      }
      r := WriteAdvance(a, version, from, advances[a].(state := to, outstanding := outstanding));
    }

    method InsertAttempt(a: Id)
      requires a < |advances|
      modifies `advances
      ensures Contents() == BookTables.InsertAttempt(old(Contents()), a) && |advances| == |old(advances)|
    {
      advances := advances[a := advances[a].(attempt := Some(Sent))];
    }

    method ResolveAttempt(a: Id, from: AttemptState, to: AttemptState)
      requires a < |advances|
      modifies `advances
      ensures Contents() == BookTables.ResolveAttempt(old(Contents()), a, from, to) && |advances| == |old(advances)|
    {
      if advances[a].attempt == Some(from) {
        advances := advances[a := advances[a].(attempt := Some(to))];
      }
    }

    method FindOpenBySubscriber(subscriber: Id) returns (r: Option<Id>)
      ensures r == FindLive(advances, subscriber)
      ensures r.Some? ==> r.value < |advances|
    {
      var i := 0;
      while i < |advances|
        invariant 0 <= i <= |advances|
        invariant FindLive(advances[..i], subscriber) == None
      {
        assert advances[..i + 1][..i] == advances[..i];
        if advances[i].subscriber == subscriber && IsLive(advances[i].state) {
          FirstLive(advances, i, subscriber);
          return Some(i);
        }
        i := i + 1;
      }
      assert advances[..i] == advances;
      return None;
    }

    method FindWrittenOffBySubscriber(subscriber: Id) returns (r: Option<Id>)
      ensures r == FindWrittenOff(Contents(), journals, subscriber)
    {
      var i := |journals|;
      assert journals[..i] == journals;
      while i > 0
        invariant 0 <= i <= |journals|
        invariant FindWrittenOff(Contents(), journals, subscriber) == FindWrittenOff(Contents(), journals[..i], subscriber)
      {
        i := i - 1;
        assert journals[..i + 1][..i] == journals[..i];
        var k := journals[i].key;
        if IsWriteOffOf(Contents(), k, subscriber) {
          return Some(writeOffs[k.writeOff].advance);
        }
      }
      return None;
    }

    // ---------------------------------------------------------------- recovery tables

    method SetEventState(e: Id, from: EventState, to: EventState) returns (r: Result<(), BookError>)
      modifies `events
      ensures Follows(BookTables.SetEventState(old(Contents()), e, from, to), r)
    {
      if e !in events || events[e].state != from {
        return Err(NotFound);
      }
      events := events[e := events[e].(state := to)];
      return Ok(());
    }

    method InsertSuspense(e: Id, amount: int) returns (r: Result<(), BookError>)
      modifies `suspense
      ensures Follows(BookTables.InsertSuspense(old(Contents()), e, amount), r)
    {
      if amount <= 0 || e in suspense {
        return Err(CheckViolation);
      }
      suspense := suspense[e := amount];
      return Ok(());
    }

    method InsertAlloc(row: Alloc)
      modifies `allocs
      ensures allocs == old(allocs) + [row]
    {
      allocs := allocs + [row];
    }

    /** Recovered so far by component, for one advance. */
    method SumByComponent(a: Id) returns (sums: map<Component, int>)
      ensures forall c :: SumOf(sums, c) == Tally(allocs, OfAdvance(a, c))
    {
      sums := map[];
      var i := 0;
      while i < |allocs|
        invariant 0 <= i <= |allocs|
        invariant forall c :: SumOf(sums, c) == Tally(allocs[..i], OfAdvance(a, c))
      {
        var row := allocs[i];
        assert allocs[..i + 1][..i] == allocs[..i];
        if row.advance == a {
          sums := sums[row.component := SumOf(sums, row.component) + row.amount];
        }
        i := i + 1;
      }
      assert allocs[..i] == allocs;
    }

    /** Net by component, for one event. */
    method ListNetByEventComponent(e: Id) returns (sums: map<Component, int>)
      ensures forall c :: SumOf(sums, c) == Tally(allocs, OfEvent(e, c))
    {
      sums := map[];
      var i := 0;
      while i < |allocs|
        invariant 0 <= i <= |allocs|
        invariant forall c :: SumOf(sums, c) == Tally(allocs[..i], OfEvent(e, c))
      {
        var row := allocs[i];
        assert allocs[..i + 1][..i] == allocs[..i];
        if row.event == e {
          sums := sums[row.component := SumOf(sums, row.component) + row.amount];
        }
        i := i + 1;
      }
      assert allocs[..i] == allocs;
    }

    /** The net still reversible and the advance it was applied to. */
    method NetAppliedByEvent(e: Id) returns (net: int, a: Option<Id>)
      ensures net == NetApplied(Contents(), e) && a == ReceivableAdvance(allocs, e)
    {
      net, a := 0, None;
      var i := 0;
      while i < |allocs|
        invariant 0 <= i <= |allocs|
        invariant net == Tally(allocs[..i], OfEvent(e, FeePart)) + Tally(allocs[..i], OfEvent(e, PrincipalPart))
        invariant a == ReceivableAdvance(allocs[..i], e)
      {
        var row := allocs[i];
        assert allocs[..i + 1][..i] == allocs[..i];
        if row.event == e && row.component != WriteoffIncomePart {
          net := net + row.amount;
          if a.None? || row.advance < a.value {
            a := Some(row.advance);
          }
        }
        i := i + 1;
      }
      assert allocs[..i] == allocs;
    }

    method InsertParked(p: Parked) returns (created: bool)
      modifies `parked
      ensures Contents() == Park(old(Contents()), p)
      ensures created <==> !ParkConflict(old(parked), p.original, p.reversal)
    {
      var k := 0;
      while k < |parked|
        invariant 0 <= k <= |parked|
        invariant forall j | 0 <= j < k :: parked[j].original != p.original && parked[j].reversal != p.reversal
      {
        if parked[k].original == p.original || parked[k].reversal == p.reversal {
          return false;
        }
        k := k + 1;
      }
      parked := parked + [p];
      return true;
    }

    method FindParkedForOriginal(original: Id) returns (r: Option<Id>)
      ensures r == FindParked(parked, original)
      ensures r.Some? ==> r.value < |parked|
    {
      var k := |parked|;
      assert parked[..k] == parked;
      while k > 0
        invariant 0 <= k <= |parked|
        invariant FindParked(parked, original) == FindParked(parked[..k], original)
      {
        k := k - 1;
        assert parked[..k + 1][..k] == parked[..k];
        if parked[k].original == original && parked[k].waiting {
          return Some(k);
        }
      }
      return None;
    }

    // ---------------------------------------------------------------- postings

    method FindJournal(key: JournalKey) returns (r: Option<nat>)
      ensures match r case None => !KeyTaken(journals, key) case Some(i) => i < |journals| && journals[i].key == key
    {
      var i := 0;
      while i < |journals|
        invariant 0 <= i <= |journals|
        invariant forall j | 0 <= j < i :: journals[j].key != key
      {
        if journals[i].key == key {
          return Some(i);
        }
        i := i + 1;
      }
      return None;
    }

    /** Posts lines, at most once per business event. */
    method PostLines(key: JournalKey, lines: seq<Line<Account>>) returns (r: Result<(), BookError>)
      requires Valid()
      modifies `journals
      ensures Valid() && Follows(Posted(old(Contents()), key, lines), r)
    {
      hide Accepted, FirstFault;
      var fault := Validate(lines, CHART);
      if fault.Some? {
        return Err(LedgerRefused);
      }
      var i := FindJournal(key);
      if i.Some? {
        StoredLines(journals, key, i.value, lines);
        if multiset(journals[i.value].lines) == multiset(lines) {
          return Ok(());
        }
        return Err(LedgerRefused);
      }
      KeysStayUnique(journals, Journal(key, lines));
      journals := journals + [Journal(key, lines)];
      return Ok(());
    }

    /** Renders the active template under bindings of all its symbols and posts it. */
    method PostEvent(key: JournalKey, e: EventType, b: Bindings, ghost v: Values) returns (r: Result<(), BookError>)
      requires Valid()
      requires Binds(b, v, CURRENCY) && forall l | l in Seeded(e) :: l.symbol in b
      modifies `journals
      ensures Valid() && Follows(BookTables.PostEvent(old(Contents()), key, e, v), r)
    {
      hide BookTables.PostEvent, Posted, Lines, Seeded, Binds;
      PostEventIsPosted(Contents(), key, e, v);
      var rendered := Render(Seeded(e), b, v, CURRENCY);
      r := PostLines(key, rendered.value);
    }
  }

  /** What posting `lines` under `key` does to the book. */
  ghost function Posted(b: Book, key: JournalKey, lines: seq<Line<Account>>): Result<Book, BookError> {
    if !Accepted(lines, CHART) then Err(LedgerRefused)
    else if KeyTaken(b.journals, key) then if AllStored(b.journals, key, lines) then Ok(b) else Err(LedgerRefused)
    else Ok(b.(journals := b.journals + [Journal(key, lines)]))
  }

  lemma PostEventIsPosted(b: Book, key: JournalKey, e: EventType, v: Values)
    ensures BookTables.PostEvent(b, key, e, v) == Posted(b, key, Lines(Seeded(e), v, CURRENCY))
  {
    hide Accepted, Lines, Seeded;
  }

  predicate AllStored(journals: seq<Journal<JournalKey, Account>>, key: JournalKey, lines: seq<Line<Account>>) {
    forall i | 0 <= i < |journals| && journals[i].key == key :: multiset(journals[i].lines) == multiset(lines)
  }

  lemma StoredLines(journals: seq<Journal<JournalKey, Account>>, key: JournalKey, i: nat, lines: seq<Line<Account>>)
    requires UniqueKeys(journals) && i < |journals| && journals[i].key == key
    ensures KeyTaken(journals, key)
    ensures AllStored(journals, key, lines) <==> multiset(journals[i].lines) == multiset(lines)
  {
  }

  lemma KeysStayUnique(journals: seq<Journal<JournalKey, Account>>, j: Journal<JournalKey, Account>)
    requires UniqueKeys(journals) && !KeyTaken(journals, j.key)
    ensures UniqueKeys(journals + [j])
  {
  }

  lemma {:induction false} FirstPoolFound(pools: seq<Pool>, p: nat, programme: Id, amount: int)
    requires p <= |pools| && PoolWithHeadroom(pools[..p], programme, amount) == None
    requires p < |pools| ==> HasHeadroom(pools[p], programme, amount)
    ensures PoolWithHeadroom(pools, programme, amount) == if p < |pools| then Some(p) else None
  {
    if p == |pools| {
      assert pools[..p] == pools;
    } else {
      var n := |pools| - 1;
      if p < n {
        assert pools[..n][..p] == pools[..p];
        FirstPoolFound(pools[..n], p, programme, amount);
      }
    }
  }

  lemma {:induction false} FirstLive(advances: seq<Advance>, i: nat, subscriber: Id)
    requires i < |advances| && FindLive(advances[..i], subscriber) == None
    requires advances[i].subscriber == subscriber && IsLive(advances[i].state)
    ensures FindLive(advances, subscriber) == Some(i)
  {
    var n := |advances| - 1;
    if i < n {
      assert advances[..n][..i] == advances[..i];
      FirstLive(advances[..n], i, subscriber);
    }
  }
}
