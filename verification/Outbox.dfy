/** The transactional outbox: first-in first-out per aggregate, for any number of workers.
    A row's position is its sequence number, taken as the order in which rows become visible. */
module Outbox {

  type Id = nat

  datatype Row = Row(aggregate: Id, kind: Id, published: bool, dead: bool, attempts: nat)

  // ------------------------------------------------------------------ one claim and its settlement

  /** No older unpublished row of the same aggregate, whatever its type and whether or not it is dead. */
  predicate IsHead(rows: seq<Row>, i: nat)
    requires i < |rows|
  {
    !rows[i].published && forall j | 0 <= j < i :: rows[j].aggregate == rows[i].aggregate ==> rows[j].published
  }

  predicate Claimable(rows: seq<Row>, i: nat, kinds: set<Id>)
    requires i < |rows|
  {
    IsHead(rows, i) && !rows[i].dead && rows[i].kind in kinds
  }

  /** Of the first `n` rows, the first `limit` claimable ones that no other transaction has locked. */
  function Batch(rows: seq<Row>, locked: set<nat>, kinds: set<Id>, limit: nat, n: nat): seq<nat>
    requires n <= |rows|
  {
    if n == 0 then []
    else
      var b := Batch(rows, locked, kinds, limit, n - 1);
      if |b| < limit && n - 1 !in locked && Claimable(rows, n - 1, kinds) then b + [n - 1] else b
  }

  /** What one dispatch makes of a claimed row. */
  function Dispatched(r: Row, maxAttempts: nat, ok: bool): Row {
    if r.attempts >= maxAttempts then r.(dead := true)
    else r.(published := ok, attempts := r.attempts + 1)
  }

  function Settle(rows: seq<Row>, batch: seq<nat>, maxAttempts: nat, failing: set<nat>): seq<Row> {
    seq(|rows|, i requires 0 <= i < |rows| =>
      if i in batch then Dispatched(rows[i], maxAttempts, i !in failing) else rows[i])
  }

  lemma {:induction false} BatchMembers(rows: seq<Row>, locked: set<nat>, kinds: set<Id>, limit: nat, n: nat)
    requires n <= |rows|
    ensures var b := Batch(rows, locked, kinds, limit, n);
            && |b| <= limit
            && (forall k | 0 <= k < |b| :: b[k] < n && b[k] !in locked && Claimable(rows, b[k], kinds))
            && (forall k, m | 0 <= k < m < |b| :: b[k] < b[m])
  {
    if n > 0 {
      BatchMembers(rows, locked, kinds, limit, n - 1);
    }
  }

  /** A batch that is not full has every claimable unlocked row. */
  lemma {:induction false} BatchMisses(rows: seq<Row>, locked: set<nat>, kinds: set<Id>, limit: nat, n: nat, i: nat)
    requires i < n <= |rows| && i !in locked && Claimable(rows, i, kinds)
    ensures var b := Batch(rows, locked, kinds, limit, n); i in b || (|b| == limit && forall k | 0 <= k < |b| :: b[k] < i)
  {
    if i < n - 1 {
      BatchMisses(rows, locked, kinds, limit, n - 1, i);
    } else {
      BatchMembers(rows, locked, kinds, limit, n - 1);
    }
  }

  lemma {:induction false} NothingConsumed(rows: seq<Row>, locked: set<nat>, limit: nat, n: nat)
    requires n <= |rows|
    ensures Batch(rows, locked, {}, limit, n) == []
  {
    if n > 0 {
      NothingConsumed(rows, locked, limit, n - 1);
    }
  }

  /** Two heads of one aggregate are the same row. */
  lemma OneHead(rows: seq<Row>, i: nat, j: nat)
    requires i < |rows| && j < |rows| && IsHead(rows, i) && IsHead(rows, j)
    requires rows[i].aggregate == rows[j].aggregate
    ensures i == j
  {
  }

  /** No row of aggregate `g` can be claimed. */
  predicate Blocked(rows: seq<Row>, g: Id, kinds: set<Id>) {
    forall i | 0 <= i < |rows| && rows[i].aggregate == g :: !Claimable(rows, i, kinds)
  }

  /** An aggregate is blocked exactly when it is all published or its oldest waiting row is dead or unconsumed. */
  lemma BlockedByHead(rows: seq<Row>, g: Id, kinds: set<Id>)
    ensures Blocked(rows, g, kinds) <==>
            forall i | 0 <= i < |rows| && rows[i].aggregate == g && IsHead(rows, i) :: rows[i].dead || rows[i].kind !in kinds
  {
  }

  predicate SameOutside(rows: seq<Row>, others: seq<Row>, g: Id) {
    && |rows| == |others|
    && forall i | 0 <= i < |rows| :: rows[i].aggregate == others[i].aggregate && (rows[i].aggregate != g ==> rows[i] == others[i])
  }

  lemma SameClaimable(rows: seq<Row>, others: seq<Row>, g: Id, kinds: set<Id>, i: nat)
    requires SameOutside(rows, others, g) && Blocked(rows, g, kinds) && Blocked(others, g, kinds) && i < |rows|
    ensures Claimable(rows, i, kinds) == Claimable(others, i, kinds)
  {
  }

  lemma SameLength(rows: seq<Row>, others: seq<Row>, g: Id)
    requires SameOutside(rows, others, g)
    ensures |rows| == |others|
  {
  }

  /** A blocked aggregate costs the others nothing: whatever its rows hold, the batch is the same. */
  lemma {:induction false} BlockedTakesNoSlot(rows: seq<Row>, others: seq<Row>, g: Id, locked: set<nat>, kinds: set<Id>,
                                              limit: nat, n: nat)
    requires SameOutside(rows, others, g) && Blocked(rows, g, kinds) && Blocked(others, g, kinds) && n <= |rows|
    ensures Batch(rows, locked, kinds, limit, n) == Batch(others, locked, kinds, limit, n)
  {
    hide Blocked, SameOutside, Claimable;
    SameLength(rows, others, g);
    if n > 0 {
      BlockedTakesNoSlot(rows, others, g, locked, kinds, limit, n - 1);
      SameClaimable(rows, others, g, kinds, n - 1);
    }
  }

  lemma SettleMore(rows: seq<Row>, batch: seq<nat>, k: nat, maxAttempts: nat, failing: set<nat>)
    requires k < |batch| && batch[k] < |rows| && batch[k] !in batch[..k]
    ensures var i := batch[k];
            var before := Settle(rows, batch[..k], maxAttempts, failing);
            && before[i] == rows[i]
            && Settle(rows, batch[..k + 1], maxAttempts, failing)
               == before[i := Dispatched(rows[i], maxAttempts, i !in failing)]
  {
    assert batch[..k + 1] == batch[..k] + [batch[k]];
  }

  // ------------------------------------------------------------------ the table

  class Table {
    var rows: seq<Row>

    constructor ()
      ensures rows == []
    {
      rows := [];
    }

    method Append(aggregate: Id, kind: Id)
      modifies this
      ensures rows == old(rows) + [Row(aggregate, kind, false, false, 0)]
    {
      rows := rows + [Row(aggregate, kind, false, false, 0)];
    }

    /** The claim query, with the rows other transactions hold. */
    method ClaimBatch(limit: nat, kinds: set<Id>, locked: set<nat>) returns (batch: seq<nat>)
      ensures batch == Batch(rows, locked, kinds, limit, |rows|)
    {
      batch := [];
      if kinds == {} {
        NothingConsumed(rows, locked, limit, |rows|);
        return;
      }
      var i := 0;
      while i < |rows|
        invariant 0 <= i <= |rows|
        invariant batch == Batch(rows, locked, kinds, limit, i)
      {
        var older := false;
        var j := 0;
        while j < i
          invariant 0 <= j <= i
          invariant older <==> exists k | 0 <= k < j :: rows[k].aggregate == rows[i].aggregate && !rows[k].published
        {
          older := older || (rows[j].aggregate == rows[i].aggregate && !rows[j].published);
          j := j + 1;
        }
        if |batch| < limit && i !in locked && !rows[i].published && !rows[i].dead && rows[i].kind in kinds && !older {
          batch := batch + [i];
        }
        i := i + 1;
      }
    }

    method MarkPublished(i: nat)
      requires i < |rows|
      modifies this
      ensures rows == old(rows)[i := old(rows)[i].(published := true, attempts := old(rows)[i].attempts + 1)]
    {
      rows := rows[i := rows[i].(published := true, attempts := rows[i].attempts + 1)];
    }

    method MarkFailed(i: nat)
      requires i < |rows|
      modifies this
      ensures rows == old(rows)[i := old(rows)[i].(attempts := old(rows)[i].attempts + 1)]
    {
      rows := rows[i := rows[i].(attempts := rows[i].attempts + 1)];
    }

    method MarkDeadLettered(i: nat)
      requires i < |rows|
      modifies this
      ensures rows == if old(rows)[i].published then old(rows) else old(rows)[i := old(rows)[i].(dead := true)]
    {
      if !rows[i].published {
        rows := rows[i := rows[i].(dead := true)];
      }
    }

    /** The operator's replay: only a dead row, with a fresh budget of attempts. */
    method Requeue(i: nat) returns (found: bool)
      modifies this
      ensures found <==> i < |old(rows)| && old(rows)[i].dead
      ensures rows == Requeued(old(rows), i)
    {
      found := i < |rows| && rows[i].dead;
      if found {
        rows := rows[i := rows[i].(dead := false, attempts := 0)];
      }
    }

    /** One dispatch cycle: claims a batch and settles each event of it in order. `failing` are the events
        whose handlers fail. */
    method RunOnce(limit: nat, maxAttempts: nat, kinds: set<Id>, locked: set<nat>, failing: set<nat>)
      returns (processed: nat)
      modifies this
      ensures rows == Settle(old(rows), Batch(old(rows), locked, kinds, limit, |old(rows)|), maxAttempts, failing)
      ensures processed == Unpublished(old(rows)) - Unpublished(rows)
    {
      var batch := ClaimBatch(limit, kinds, locked);
      ghost var start := rows;
      BatchMembers(rows, locked, kinds, limit, |rows|);
      processed := 0;
      var k := 0;
      assert rows == Settle(start, batch[..0], maxAttempts, failing);
      while k < |batch|
        invariant 0 <= k <= |batch|
        invariant rows == Settle(start, batch[..k], maxAttempts, failing)
        invariant processed == Unpublished(start) - Unpublished(rows)
      {
        var i := batch[k];
        SettleMore(start, batch, k, maxAttempts, failing);
        ghost var before := rows;
        if rows[i].attempts >= maxAttempts {
          MarkDeadLettered(i);
        } else if i in failing {
          MarkFailed(i);
        } else {
          MarkPublished(i);
          processed := processed + 1;
        }
        assert rows == before[i := Dispatched(start[i], maxAttempts, i !in failing)];
        UnpublishedUpdate(before, i, Dispatched(start[i], maxAttempts, i !in failing));
        k := k + 1;
      }
      assert batch[..k] == batch;
    }
  }

  function Requeued(rows: seq<Row>, i: nat): seq<Row> {
    if i < |rows| && rows[i].dead then rows[i := rows[i].(dead := false, attempts := 0)] else rows
  }

  /** How many rows wait to be published. */
  function Unpublished(rows: seq<Row>): nat {
    if rows == [] then 0 else Unpublished(rows[..|rows| - 1]) + if rows[|rows| - 1].published then 0 else 1
  }

  lemma {:induction false} UnpublishedUpdate(rows: seq<Row>, i: nat, r: Row)
    requires i < |rows| && !rows[i].published
    ensures Unpublished(rows[i := r]) == Unpublished(rows) - if r.published then 1 else 0
  {
    var n := |rows| - 1;
    if i == n {
      assert rows[i := r][..n] == rows[..n];
    } else {
      assert rows[i := r][..n] == rows[..n][i := r];
      UnpublishedUpdate(rows[..n], i, r);
    }
  }

  // ------------------------------------------------------------------ many workers

  /** An open dispatch transaction: the rows it has locked and the attempt budget it read. */
  datatype Lease = Lease(batch: seq<nat>, maxAttempts: nat)

  datatype System = System(rows: seq<Row>, held: map<Id, Lease>)

  datatype Action =
    | Emit(aggregate: Id, kind: Id)
    | Claim(worker: Id, limit: nat, kinds: set<Id>, maxAttempts: nat)
    | Commit(worker: Id, failing: set<nat>)
    | Abort(worker: Id)
    | Replay(row: nat)

  ghost predicate Holds(s: System, w: Id, i: nat) {
    w in s.held && i in s.held[w].batch
  }

  ghost function Locked(s: System): set<nat> {
    set w: Id, i: nat | w in s.held && i in s.held[w].batch :: i
  }

  /** A claim locks its rows until its transaction commits its writes or rolls them back. */
  ghost function Next(s: System, a: Action): System {
    match a
    case Emit(g, kind) => s.(rows := s.rows + [Row(g, kind, false, false, 0)])
    case Claim(w, limit, kinds, maxAttempts) =>
      if w in s.held then s
      else s.(held := s.held[w := Lease(Batch(s.rows, Locked(s), kinds, limit, |s.rows|), maxAttempts)])
    case Commit(w, failing) =>
      if w !in s.held then s
      else System(Settle(s.rows, s.held[w].batch, s.held[w].maxAttempts, failing), s.held - {w})
    case Abort(w) => s.(held := s.held - {w})
    case Replay(i) => s.(rows := Requeued(s.rows, i))
  }

  ghost function Run(s: System, actions: seq<Action>): System {
    if actions == [] then s else Next(Run(s, actions[..|actions| - 1]), actions[|actions| - 1])
  }

  /** The published rows of every aggregate are a prefix of its rows. */
  ghost predicate PublishedInOrder(rows: seq<Row>) {
    forall i, j | 0 <= i < j < |rows| && rows[i].aggregate == rows[j].aggregate && rows[j].published :: rows[i].published
  }

  /** Every locked row is a live head, locked once. */
  ghost predicate HoldsHeads(s: System) {
    && (forall w: Id, i: nat | Holds(s, w, i) :: i < |s.rows| && IsHead(s.rows, i) && !s.rows[i].dead)
    && (forall v: Id, w: Id, i: nat | Holds(s, v, i) && Holds(s, w, i) :: v == w)
  }

  ghost predicate Inv(s: System) {
    PublishedInOrder(s.rows) && HoldsHeads(s)
  }

  lemma ClaimKeepsInv(s: System, w: Id, limit: nat, kinds: set<Id>, maxAttempts: nat)
    requires Inv(s)
    ensures Inv(Next(s, Claim(w, limit, kinds, maxAttempts)))
  {
    BatchMembers(s.rows, Locked(s), kinds, limit, |s.rows|);
    var s1 := Next(s, Claim(w, limit, kinds, maxAttempts));
    forall v: Id, i: nat | Holds(s1, v, i)
      ensures i < |s.rows| && IsHead(s.rows, i) && !s.rows[i].dead && (v != w ==> Holds(s, v, i))
      ensures v == w && w !in s.held ==> i !in Locked(s)
    {
      assert v != w ==> Holds(s, v, i);
      if v == w && w in s.held {
        assert Holds(s, v, i);
      }
    }
  }

  lemma CommitKeepsInv(s: System, w: Id, failing: set<nat>)
    requires Inv(s)
    ensures Inv(Next(s, Commit(w, failing)))
  {
    if w in s.held {
      var s1 := Next(s, Commit(w, failing));
      forall i | 0 <= i < |s.rows| && s.rows[i] != s1.rows[i] ensures Holds(s, w, i) {
      }
      forall v: Id, i: nat | Holds(s1, v, i) ensures Holds(s, v, i) && v != w && s1.rows[i] == s.rows[i] {
        assert Holds(s, v, i);
        assert !Holds(s, w, i);
      }
    }
  }

  lemma StepKeepsInv(s: System, a: Action)
    requires Inv(s)
    ensures Inv(Next(s, a))
  {
    var s1 := Next(s, a);
    match a
    case Claim(w, limit, kinds, maxAttempts) => ClaimKeepsInv(s, w, limit, kinds, maxAttempts);
    case Commit(w, failing) => CommitKeepsInv(s, w, failing);
    case Emit(_, _) =>
      assert forall v: Id, i: nat | Holds(s1, v, i) :: Holds(s, v, i);
    case Abort(w) =>
      assert forall v: Id, i: nat | Holds(s1, v, i) :: Holds(s, v, i);
    case Replay(_) =>
      assert forall v: Id, i: nat | Holds(s1, v, i) :: Holds(s, v, i);
  }

  /** Over every run of any workers, each aggregate is published in order and at most one of its events
      is in flight. */
  lemma {:induction false} RunsPublishInOrder(actions: seq<Action>)
    ensures var s := Run(System([], map[]), actions);
            && PublishedInOrder(s.rows)
            && forall v: Id, w: Id, i: nat, j: nat | Holds(s, v, i) && Holds(s, w, j) ::
                 i < |s.rows| && j < |s.rows| && (s.rows[i].aggregate == s.rows[j].aggregate ==> i == j && v == w)
  {
    RunKeepsInv(System([], map[]), actions);
    var s := Run(System([], map[]), actions);
    forall v: Id, w: Id, i: nat, j: nat | Holds(s, v, i) && Holds(s, w, j) && s.rows[i].aggregate == s.rows[j].aggregate ensures i == j && v == w {
      OneHead(s.rows, i, j);
    }
  }

  lemma {:induction false} RunKeepsInv(s: System, actions: seq<Action>)
    requires Inv(s)
    ensures Inv(Run(s, actions))
  {
    if actions != [] {
      RunKeepsInv(s, actions[..|actions| - 1]);
      StepKeepsInv(Run(s, actions[..|actions| - 1]), actions[|actions| - 1]);
    }
  }

  /** Row `h` can never be dispatched by `a`: it is dead and not replayed, or no claim consumes its type. */
  predicate LeavesStuck(h: nat, kind: Id, dead: bool, a: Action) {
    if dead then a != Replay(h) else a.Claim? ==> kind !in a.kinds
  }

  ghost predicate Stuck(s: System, h: nat, kind: Id, dead: bool) {
    && h < |s.rows| && !s.rows[h].published && s.rows[h].kind == kind && (dead ==> s.rows[h].dead)
    && forall w :: !Holds(s, w, h)
  }

  lemma StuckStep(s: System, h: nat, kind: Id, dead: bool, a: Action)
    requires Inv(s) && Stuck(s, h, kind, dead) && LeavesStuck(h, kind, dead, a)
    ensures Stuck(Next(s, a), h, kind, dead) && Next(s, a).rows[h].aggregate == s.rows[h].aggregate
  {
    var s1 := Next(s, a);
    if a.Claim? {
      BatchMembers(s.rows, Locked(s), a.kinds, a.limit, |s.rows|);
    }
    if a.Commit? && a.worker in s.held {
      assert !Holds(s, a.worker, h);
    }
    forall w ensures !Holds(s1, w, h) {
      assert !Holds(s, w, h);
    }
  }

  /** A dead head not replayed, or an unconsumed one, holds its successors unpublished through any run. */
  lemma {:induction false} StuckHeadBlocks(s: System, h: nat, kind: Id, dead: bool, actions: seq<Action>)
    requires Inv(s) && Stuck(s, h, kind, dead)
    requires forall k | 0 <= k < |actions| :: LeavesStuck(h, kind, dead, actions[k])
    ensures var t := Run(s, actions);
            && Inv(t) && Stuck(t, h, kind, dead) && t.rows[h].aggregate == s.rows[h].aggregate
            && (forall j | h < j < |t.rows| && t.rows[j].aggregate == s.rows[h].aggregate :: !t.rows[j].published)
            && (forall w: Id, j: nat | Holds(t, w, j) :: j < |t.rows| && (t.rows[j].aggregate == s.rows[h].aggregate ==> j < h))
  {
    if actions != [] {
      var n := |actions| - 1;
      StuckHeadBlocks(s, h, kind, dead, actions[..n]);
      StuckStep(Run(s, actions[..n]), h, kind, dead, actions[n]);
      StepKeepsInv(Run(s, actions[..n]), actions[n]);
    }
    var t := Run(s, actions);
    forall w: Id, j: nat | Holds(t, w, j) && t.rows[j].aggregate == s.rows[h].aggregate ensures j < h {
      assert !Holds(t, w, h);
    }
  }

  // ------------------------------------------------------------------ attempts

  /** Tries stay within `cap`, and a dead row is not published. */
  ghost predicate Budgeted(s: System, cap: nat) {
    && (forall i | 0 <= i < |s.rows| :: s.rows[i].attempts <= cap && !(s.rows[i].dead && s.rows[i].published))
    && (forall w | w in s.held :: s.held[w].maxAttempts <= cap)
  }

  lemma BudgetStep(s: System, a: Action, cap: nat)
    requires Inv(s) && Budgeted(s, cap) && (a.Claim? ==> a.maxAttempts <= cap)
    ensures Budgeted(Next(s, a), cap)
  {
    if a.Commit? && a.worker in s.held {
      var lease := s.held[a.worker];
      assert lease.maxAttempts <= cap;
      forall i | 0 <= i < |s.rows| && i in lease.batch
        ensures !s.rows[i].dead && !s.rows[i].published
        ensures Dispatched(s.rows[i], lease.maxAttempts, i !in a.failing).attempts <= cap
      {
        assert Holds(s, a.worker, i);
      }
    }
  }

  /** Under budgets of at most `cap` no row is ever tried more than `cap` times between replays. */
  lemma {:induction false} AttemptsAreBounded(actions: seq<Action>, cap: nat)
    requires forall k | 0 <= k < |actions| :: actions[k].Claim? ==> actions[k].maxAttempts <= cap
    ensures Budgeted(Run(System([], map[]), actions), cap)
  {
    if actions != [] {
      var n := |actions| - 1;
      AttemptsAreBounded(actions[..n], cap);
      RunKeepsInv(System([], map[]), actions[..n]);
      BudgetStep(Run(System([], map[]), actions[..n]), actions[n], cap);
    }
  }

  // ------------------------------------------------------------------ progress

  /** Every row can still be dispatched. */
  predicate AllLive(rows: seq<Row>, kinds: set<Id>, maxAttempts: nat) {
    forall i | 0 <= i < |rows| && !rows[i].published :: !rows[i].dead && rows[i].kind in kinds && rows[i].attempts < maxAttempts
  }

  function Cycle(rows: seq<Row>, kinds: set<Id>, limit: nat, maxAttempts: nat): seq<Row> {
    Settle(rows, Batch(rows, {}, kinds, limit, |rows|), maxAttempts, {})
  }

  function Cycles(rows: seq<Row>, kinds: set<Id>, limit: nat, maxAttempts: nat, n: nat): seq<Row>
    decreases n
  {
    if n == 0 then rows else Cycles(Cycle(rows, kinds, limit, maxAttempts), kinds, limit, maxAttempts, n - 1)
  }

  /** The oldest waiting row of all is a head. */
  lemma {:induction false} OldestWaiting(rows: seq<Row>, n: nat) returns (i: nat)
    requires n <= |rows| && exists k | 0 <= k < n :: !rows[k].published
    ensures i < n && IsHead(rows, i)
  {
    if exists k | 0 <= k < n - 1 :: !rows[k].published {
      i := OldestWaiting(rows, n - 1);
    } else {
      i := n - 1;
    }
  }

  lemma {:induction false} UnpublishedMono(a: seq<Row>, b: seq<Row>)
    requires |a| == |b| && forall i | 0 <= i < |a| && a[i].published :: b[i].published
    ensures Unpublished(b) <= Unpublished(a)
    ensures (exists i | 0 <= i < |a| :: b[i].published && !a[i].published) ==> Unpublished(b) < Unpublished(a)
    ensures Unpublished(a) == 0 <==> forall i | 0 <= i < |a| :: a[i].published
  {
    if a != [] {
      UnpublishedMono(a[..|a| - 1], b[..|b| - 1]);
    }
  }

  /** With working handlers and room for one event, a cycle publishes something while anything waits. */
  lemma CycleProgress(rows: seq<Row>, kinds: set<Id>, limit: nat, maxAttempts: nat)
    requires limit > 0 && AllLive(rows, kinds, maxAttempts)
    ensures var next := Cycle(rows, kinds, limit, maxAttempts);
            && AllLive(next, kinds, maxAttempts)
            && Unpublished(next) <= Unpublished(rows)
            && (Unpublished(rows) > 0 ==> Unpublished(next) < Unpublished(rows))
  {
    var next := Cycle(rows, kinds, limit, maxAttempts);
    var b := Batch(rows, {}, kinds, limit, |rows|);
    BatchMembers(rows, {}, kinds, limit, |rows|);
    forall i | 0 <= i < |rows|
      ensures rows[i].published ==> next[i] == rows[i]
      ensures !rows[i].published ==> next[i].published || next[i] == rows[i]
      ensures i in b ==> next[i].published && !rows[i].published
    {
    }
    UnpublishedMono(rows, next);
    if Unpublished(rows) > 0 {
      var i := OldestWaiting(rows, |rows|);
      BatchMisses(rows, {}, kinds, limit, |rows|, i);
      assert b[0] in b;
    }
  }

  /** With working handlers and room for one event, as many cycles as rows wait publish everything. */
  lemma {:induction false} CyclesDrain(rows: seq<Row>, kinds: set<Id>, limit: nat, maxAttempts: nat, n: nat)
    requires limit > 0 && AllLive(rows, kinds, maxAttempts) && n >= Unpublished(rows)
    ensures forall r | r in Cycles(rows, kinds, limit, maxAttempts, n) :: r.published
    decreases n
  {
    if n == 0 {
      UnpublishedMono(rows, rows);
    } else {
      CycleProgress(rows, kinds, limit, maxAttempts);
      CyclesDrain(Cycle(rows, kinds, limit, maxAttempts), kinds, limit, maxAttempts, n - 1);
    }
  }
}
