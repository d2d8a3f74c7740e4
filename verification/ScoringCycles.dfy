/** The scoring schedule's claims: a lease on each cycle, reclaimed after failure or expiry, and closing
    marks that no guard ties to the lease. One programme; times are readings of the database clock. */
module ScoringCycles {
  import opened Arith
  import opened Common

  type Id = nat

  datatype Status = Claimed | Succeeded | StaleNoRefresh | Failed

  datatype Cycle = Cycle(status: Status, claimedBy: Id, claimedAt: int, attempts: nat,
                         file: Option<Id>, run: Option<Id>, subjects: Option<nat>)

  /** The three closing marks and what each writes. */
  datatype Closing = Success(run: Id, subjects: nat) | NoRefresh(run: Id) | Failure

  function Closed(c: Cycle, m: Closing): Cycle {
    match m
    case Success(r, n) => c.(status := Succeeded, run := Some(r), subjects := Some(n))
    case NoRefresh(r) => c.(status := StaleNoRefresh, run := Some(r))
    case Failure => c.(status := Failed)
  }

  /** The cadence grid and the lease, in seconds. */
  datatype Schedule = Schedule(window: int, lease: int) {
    predicate Valid() { window > 0 && lease > 0 }
  }

  /** The start of the cadence bucket that holds `now`. */
  function Bucket(now: int, s: Schedule): (k: int)
    requires s.Valid()
    ensures k <= now < k + s.window && k % s.window == 0
  {
    DivMod(now, s.window);
    DivUnique(now / s.window * s.window, s.window, now / s.window, 0);
    now / s.window * s.window
  }

  /** The claim statement's WHERE: a failed cycle, or a claim whose lease has run out. */
  predicate Reclaimable(c: Cycle, now: int, s: Schedule) {
    c.status == Failed || (c.status == Claimed && c.claimedAt < now - s.lease)
  }

  predicate IsClosed(c: Cycle) { c.status == Succeeded || c.status == StaleNoRefresh }

  /** A claim inserts the cycle or takes it over, keeping the file bound to it. */
  function Claim(cycles: map<int, Cycle>, key: int, w: Id, now: int, s: Schedule): Option<Cycle> {
    if key !in cycles then Some(Cycle(Claimed, w, now, 1, None, None, None))
    else if Reclaimable(cycles[key], now, s) then
      Some(Cycle(Claimed, w, now, cycles[key].attempts + 1, cycles[key].file, None, None))
    else None
  }

  class Table {
    var cycles: map<int, Cycle>

    constructor ()
      ensures cycles == map[]
    {
      cycles := map[];
    }

    /** The claimed cycle's key and row, or nothing to do this tick. */
    method ClaimOrReclaim(w: Id, now: int, s: Schedule) returns (r: Option<(int, Cycle)>)
      requires s.Valid()
      modifies this
      ensures var key := Bucket(now, s);
              match Claim(old(cycles), key, w, now, s)
              case Some(c) => r == Some((key, c)) && cycles == old(cycles)[key := c]
              case None => r == None && cycles == old(cycles)
    {
      var key := Bucket(now, s);
      if key !in cycles {
        cycles := cycles[key := Cycle(Claimed, w, now, 1, None, None, None)];
        return Some((key, cycles[key]));
      }
      var c := cycles[key];
      if c.status == Failed || (c.status == Claimed && c.claimedAt < now - s.lease) {
        cycles := cycles[key := c.(status := Claimed, claimedBy := w, claimedAt := now, attempts := c.attempts + 1,
                                   run := None, subjects := None)];
        return Some((key, cycles[key]));
      }
      return None;
    }

    method BindFeatureFile(key: int, file: Id)
      modifies this
      ensures cycles == Bound(old(cycles), key, file)
    {
      if key in cycles {
        cycles := cycles[key := cycles[key].(file := Some(file))];
      }
    }

    /** MarkSucceeded, MarkStaleNoRefresh and MarkFailed: by key alone, whoever holds the lease. */
    method Mark(key: int, m: Closing)
      modifies this
      ensures cycles == Marked(old(cycles), key, m)
    {
      if key in cycles {
        match m {
          case Success(r, n) =>
            cycles := cycles[key := cycles[key].(status := Succeeded, run := Some(r), subjects := Some(n))];
          case NoRefresh(r) => cycles := cycles[key := cycles[key].(status := StaleNoRefresh, run := Some(r))];
          case Failure => cycles := cycles[key := cycles[key].(status := Failed)];
        }
      }
    }
  }

  function Marked(cycles: map<int, Cycle>, key: int, m: Closing): map<int, Cycle> {
    if key in cycles then cycles[key := Closed(cycles[key], m)] else cycles
  }

  function Bound(cycles: map<int, Cycle>, key: int, file: Id): map<int, Cycle> {
    if key in cycles then cycles[key := cycles[key].(file := Some(file))] else cycles
  }

  // ------------------------------------------------------------------ workers

  /** What a worker remembers of its claim, and the file it will score: it binds and closes the cycle with
      nothing else in hand. */
  datatype Lease = Lease(key: int, claimedAt: int, file: Option<Id>)

  datatype System = System(now: int, cycles: map<int, Cycle>, held: map<Id, Lease>)

  datatype Action =
    | Tick(seconds: nat)
    | Take(worker: Id)
    | Bind(worker: Id, file: Id)
    | Finish(worker: Id, mark: Closing)
    | Crash(worker: Id)

  /** A worker that was given no file ingests one and binds it. */
  predicate Binds(y: System, a: Action) {
    a.Bind? && a.worker in y.held && y.held[a.worker].file.None?
  }

  /** A worker closes its cycle as scored only with a file in hand; it may fail at any time. */
  predicate Marks(y: System, a: Action) {
    a.Finish? && a.worker in y.held && (a.mark.Failure? || y.held[a.worker].file.Some?)
  }

  /** An action that is not enabled does nothing. */
  function Next(y: System, a: Action, s: Schedule): System
    requires s.Valid()
  {
    match a
    case Tick(d) => y.(now := y.now + d)
    case Take(w) =>
      if w in y.held then y
      else
        var key := Bucket(y.now, s);
        (match Claim(y.cycles, key, w, y.now, s)
         case Some(c) => y.(cycles := y.cycles[key := c], held := y.held[w := Lease(key, y.now, c.file)])
         case None => y)
    case Bind(w, f) =>
      if Binds(y, a) then
        y.(cycles := Bound(y.cycles, y.held[w].key, f), held := y.held[w := y.held[w].(file := Some(f))])
      else y
    case Finish(w, m) =>
      if Marks(y, a) then y.(cycles := Marked(y.cycles, y.held[w].key, m), held := y.held - {w}) else y
    case Crash(w) => y.(held := y.held - {w})
  }

  function Run(y: System, actions: seq<Action>, s: Schedule): System
    requires s.Valid()
  {
    if actions == [] then y else Next(Run(y, actions[..|actions| - 1], s), actions[|actions| - 1], s)
  }

  /** The lease is still running. */
  predicate Live(y: System, w: Id, s: Schedule) {
    w in y.held && y.held[w].claimedAt >= y.now - s.lease
  }

  /** A worker binds and closes its cycle only while its lease runs. */
  predicate InTime(y: System, a: Action, s: Schedule) {
    Binds(y, a) || Marks(y, a) ==> Live(y, a.worker, s)
  }

  ghost predicate AllInTime(y: System, actions: seq<Action>, s: Schedule)
    requires s.Valid()
  {
    actions == [] || (AllInTime(y, actions[..|actions| - 1], s)
                      && InTime(Run(y, actions[..|actions| - 1], s), actions[|actions| - 1], s))
  }

  /** A running lease is the one its cycle shows. */
  ghost predicate Owned(y: System, s: Schedule) {
    forall w | Live(y, w, s) ::
      var l := y.held[w];
      l.key in y.cycles && y.cycles[l.key].status == Claimed && y.cycles[l.key].claimedBy == w
      && y.cycles[l.key].claimedAt == l.claimedAt
  }

  lemma OwnedStep(y: System, a: Action, s: Schedule)
    requires s.Valid() && Owned(y, s) && InTime(y, a, s)
    ensures Owned(Next(y, a, s), s)
    ensures forall k | k in y.cycles && IsClosed(y.cycles[k]) ::
              k in Next(y, a, s).cycles && Next(y, a, s).cycles[k] == y.cycles[k]
  {
    var z := Next(y, a, s);
    forall w | Live(z, w, s) && !(a.Take? && a.worker == w && w !in y.held)
      ensures Live(y, w, s) && z.held[w].key == y.held[w].key && z.held[w].claimedAt == y.held[w].claimedAt
    {
    }
  }

  /** While every worker binds and closes in time, no two running leases share a cycle, and a closed cycle is never
      claimed or changed again. */
  lemma {:induction false} LeasesExclude(now: int, actions: seq<Action>, s: Schedule)
    requires s.Valid() && AllInTime(System(now, map[], map[]), actions, s)
    ensures var y := Run(System(now, map[], map[]), actions, s);
            && Owned(y, s)
            && (forall v, w | Live(y, v, s) && Live(y, w, s) && y.held[v].key == y.held[w].key :: v == w)
  {
    if actions != [] {
      var n := |actions| - 1;
      LeasesExclude(now, actions[..n], s);
      OwnedStep(Run(System(now, map[], map[]), actions[..n], s), actions[n], s);
    }
  }

  // ------------------------------------------------------------------ closed cycles

  /** Every cycle closed in `y` is the same in `z`: status, claim, attempts, file, run and count. */
  ghost predicate KeepsClosed(y: System, z: System) {
    forall k | k in y.cycles && IsClosed(y.cycles[k]) :: k in z.cycles && z.cycles[k] == y.cycles[k]
  }

  /** Every file bound in `y` is bound in `z`. */
  ghost predicate KeepsFiles(y: System, z: System) {
    forall k | k in y.cycles && y.cycles[k].file.Some? :: k in z.cycles && z.cycles[k].file == y.cycles[k].file
  }

  /** The mark says something else than the closed cycle does. */
  predicate Disagrees(c: Cycle, m: Closing) {
    match m
    case Success(r, n) => c.status != Succeeded || c.run != Some(r) || c.subjects != Some(n)
    case NoRefresh(r) => c.status != StaleNoRefresh || c.run != Some(r)
    case Failure => true
  }

  /** A late bind: the cycle has another file by now. */
  predicate Rebinds(y: System, a: Action) {
    && Binds(y, a) && y.held[a.worker].key in y.cycles
    && var c := y.cycles[y.held[a.worker].key]; c.file.Some? && c.file.value != a.file
  }

  /** A late mark: the cycle is closed by now, and otherwise. */
  predicate Overmarks(y: System, a: Action) {
    && Marks(y, a) && y.held[a.worker].key in y.cycles
    && var c := y.cycles[y.held[a.worker].key]; IsClosed(c) && Disagrees(c, a.mark)
  }

  /** A late mark, or a late bind of a cycle that is closed. */
  predicate Overwrites(y: System, a: Action) {
    Overmarks(y, a) || (Rebinds(y, a) && IsClosed(y.cycles[y.held[a.worker].key]))
  }

  /** A closed cycle was scored from a file. */
  ghost predicate Sound(y: System) {
    && (forall w | w in y.held :: y.held[w].key in y.cycles)
    && (forall w | w in y.held && y.held[w].file.Some? :: y.cycles[y.held[w].key].file.Some?)
    && (forall k | k in y.cycles && IsClosed(y.cycles[k]) :: y.cycles[k].file.Some?)
  }

  lemma StepSound(y: System, a: Action, s: Schedule)
    requires s.Valid() && Sound(y)
    ensures Sound(Next(y, a, s))
  {
    hide Bucket;
  }

  /** A step changes a closed cycle exactly when it is a late mark that disagrees or a late bind of another file,
      and reopens one exactly when it is a late failure. */
  lemma StepKeepsClosedIff(y: System, a: Action, s: Schedule)
    requires s.Valid() && Sound(y)
    ensures KeepsClosed(y, Next(y, a, s)) <==> !Overwrites(y, a)
    ensures (exists k :: k in y.cycles && IsClosed(y.cycles[k]) && (k in Next(y, a, s).cycles ==> !IsClosed(Next(y, a, s).cycles[k])))
            <==> Overmarks(y, a) && a.mark.Failure?
  {
    hide Bucket;
    var z := Next(y, a, s);
    if Overwrites(y, a) {
      var k := y.held[a.worker].key;
      assert IsClosed(y.cycles[k]) && z.cycles[k] != y.cycles[k];
    }
  }

  /** A step changes a bound file exactly when it is a late bind of another one: a takeover keeps it. */
  lemma StepKeepsFilesIff(y: System, a: Action, s: Schedule)
    requires s.Valid()
    ensures KeepsFiles(y, Next(y, a, s)) <==> !Rebinds(y, a)
  {
    hide Bucket;
    if Rebinds(y, a) {
      assert y.cycles[y.held[a.worker].key].file.Some?;
    }
  }

  lemma {:induction false} RunIsSound(now: int, actions: seq<Action>, s: Schedule)
    requires s.Valid()
    ensures Sound(Run(System(now, map[], map[]), actions, s))
  {
    hide Next;
    if actions != [] {
      var n := |actions| - 1;
      RunIsSound(now, actions[..n], s);
      StepSound(Run(System(now, map[], map[]), actions[..n], s), actions[n], s);
    }
  }

  /** The system after the first `i` actions. */
  function After(now: int, actions: seq<Action>, s: Schedule, i: nat): System
    requires s.Valid() && i <= |actions|
  {
    Run(System(now, map[], map[]), actions[..i], s)
  }

  lemma AfterNext(now: int, actions: seq<Action>, s: Schedule, i: nat)
    requires s.Valid() && i < |actions|
    ensures After(now, actions, s, i + 1) == Next(After(now, actions, s, i), actions[i], s)
    ensures Sound(After(now, actions, s, i))
  {
    RunIsSound(now, actions[..i], s);
    assert actions[..i + 1][..i] == actions[..i];
  }

  /** Over any run, every cycle stays as it was closed for the rest of the run exactly when no step overwrites
      one by a late mark or a late bind. */
  lemma ClosedStaysClosedIff(now: int, actions: seq<Action>, s: Schedule)
    requires s.Valid()
    ensures (forall i, j | 0 <= i <= j <= |actions| :: KeepsClosed(After(now, actions, s, i), After(now, actions, s, j)))
            <==> (forall i | 0 <= i < |actions| :: !Overwrites(After(now, actions, s, i), actions[i]))
  {
    hide After, KeepsClosed, Overwrites, Next;
    if forall i | 0 <= i < |actions| :: !Overwrites(After(now, actions, s, i), actions[i]) {
      forall i, j | 0 <= i <= j <= |actions| ensures KeepsClosed(After(now, actions, s, i), After(now, actions, s, j)) {
        KeptSince(now, actions, s, i, j);
      }
    } else {
      var i :| 0 <= i < |actions| && Overwrites(After(now, actions, s, i), actions[i]);
      AfterNext(now, actions, s, i);
      StepKeepsClosedIff(After(now, actions, s, i), actions[i], s);
      assert !KeepsClosed(After(now, actions, s, i), After(now, actions, s, i + 1));
    }
  }

  lemma {:induction false} KeptSince(now: int, actions: seq<Action>, s: Schedule, i: nat, j: nat)
    requires s.Valid() && i <= j <= |actions|
    requires forall n | 0 <= n < |actions| :: !Overwrites(After(now, actions, s, n), actions[n])
    ensures KeepsClosed(After(now, actions, s, i), After(now, actions, s, j))
    decreases j
  {
    hide After, Next, Overwrites;
    if i < j {
      KeptSince(now, actions, s, i, j - 1);
      AfterNext(now, actions, s, j - 1);
      StepKeepsClosedIff(After(now, actions, s, j - 1), actions[j - 1], s);
    }
  }

  /** Over any run, every cycle keeps the file first bound to it, through every takeover, exactly when no step is
      a late bind of another file. */
  lemma FilesStayIff(now: int, actions: seq<Action>, s: Schedule)
    requires s.Valid()
    ensures (forall i, j | 0 <= i <= j <= |actions| :: KeepsFiles(After(now, actions, s, i), After(now, actions, s, j)))
            <==> (forall i | 0 <= i < |actions| :: !Rebinds(After(now, actions, s, i), actions[i]))
  {
    hide After, KeepsFiles, Rebinds, Next;
    if forall i | 0 <= i < |actions| :: !Rebinds(After(now, actions, s, i), actions[i]) {
      forall i, j | 0 <= i <= j <= |actions| ensures KeepsFiles(After(now, actions, s, i), After(now, actions, s, j)) {
        FilesSince(now, actions, s, i, j);
      }
    } else {
      var i :| 0 <= i < |actions| && Rebinds(After(now, actions, s, i), actions[i]);
      AfterNext(now, actions, s, i);
      StepKeepsFilesIff(After(now, actions, s, i), actions[i], s);
      assert !KeepsFiles(After(now, actions, s, i), After(now, actions, s, i + 1));
    }
  }

  lemma {:induction false} FilesSince(now: int, actions: seq<Action>, s: Schedule, i: nat, j: nat)
    requires s.Valid() && i <= j <= |actions|
    requires forall n | 0 <= n < |actions| :: !Rebinds(After(now, actions, s, n), actions[n])
    ensures KeepsFiles(After(now, actions, s, i), After(now, actions, s, j))
    decreases j
  {
    hide After, Next, Rebinds;
    if i < j {
      FilesSince(now, actions, s, i, j - 1);
      AfterNext(now, actions, s, j - 1);
      StepKeepsFilesIff(After(now, actions, s, j - 1), actions[j - 1], s);
    }
  }

  /** The worker's claim is the last one on its cycle: nobody has taken the cycle over since. */
  predicate Owns(y: System, w: Id) {
    && w in y.held && y.held[w].key in y.cycles
    && var c := y.cycles[y.held[w].key]; c.claimedBy == w && c.claimedAt == y.held[w].claimedAt
  }

  /** Nobody binds or marks a cycle that another claim has since taken over. */
  ghost predicate OwnersWrite(now: int, actions: seq<Action>, s: Schedule)
    requires s.Valid()
  {
    forall i | 0 <= i < |actions| :: InHand(After(now, actions, s, i), actions[i])
  }

  predicate InHand(y: System, a: Action) {
    Binds(y, a) || Marks(y, a) ==> Owns(y, a.worker)
  }

  /** A claim that was not taken over is still open, and knows its cycle's file. */
  ghost predicate OwnersAreOpen(y: System) {
    forall w | Owns(y, w) ::
      y.cycles[y.held[w].key].status == Claimed && y.cycles[y.held[w].key].file == y.held[w].file
  }

  lemma OwnersStep(y: System, a: Action, s: Schedule)
    requires s.Valid() && OwnersAreOpen(y) && InHand(y, a)
    ensures OwnersAreOpen(Next(y, a, s)) && !Overwrites(y, a) && !Rebinds(y, a)
  {
    hide Bucket;
    var z := Next(y, a, s);
    forall w | Owns(z, w)
      ensures z.cycles[z.held[w].key].status == Claimed && z.cycles[z.held[w].key].file == z.held[w].file
    {
      if !(a.Take? && a.worker == w && w !in y.held) && z.cycles[z.held[w].key] == y.cycles[y.held[w].key] {
        assert Owns(y, w);
      }
    }
  }

  lemma {:induction false} OwnersRun(now: int, actions: seq<Action>, s: Schedule, i: nat)
    requires s.Valid() && i <= |actions| && OwnersWrite(now, actions, s)
    ensures OwnersAreOpen(After(now, actions, s, i))
  {
    hide Next, OwnersAreOpen, Owns;
    if i == 0 {
      NobodyOwns(now, s);
    } else {
      OwnersRun(now, actions, s, i - 1);
      AfterNext(now, actions, s, i - 1);
      hide After;
      OwnersStep(After(now, actions, s, i - 1), actions[i - 1], s);
    }
  }

  lemma NobodyOwns(now: int, s: Schedule)
    requires s.Valid()
    ensures OwnersAreOpen(Run(System(now, map[], map[]), [], s))
  {
  }

  /** While nobody binds or marks a cycle that another worker has since taken over, however late the writes
      come, every cycle stays as it was closed and keeps the file first bound to it. */
  lemma ClosedStaysClosed(now: int, actions: seq<Action>, s: Schedule, i: nat, j: nat)
    requires s.Valid() && OwnersWrite(now, actions, s) && i <= j <= |actions|
    ensures KeepsClosed(After(now, actions, s, i), After(now, actions, s, j))
    ensures KeepsFiles(After(now, actions, s, i), After(now, actions, s, j))
  {
    hide After, Next, KeepsClosed, KeepsFiles, Overwrites, Rebinds, OwnersAreOpen, InHand;
    forall n | 0 <= n < |actions|
      ensures !Overwrites(After(now, actions, s, n), actions[n]) && !Rebinds(After(now, actions, s, n), actions[n])
    {
      OwnersRun(now, actions, s, n);
      OwnersStep(After(now, actions, s, n), actions[n], s);
    }
    ClosedStaysClosedIff(now, actions, s);
    FilesStayIff(now, actions, s);
  }

  lemma {:induction false} InTimeOfPrefix(y: System, actions: seq<Action>, s: Schedule, i: nat)
    requires s.Valid() && AllInTime(y, actions, s) && i <= |actions|
    ensures AllInTime(y, actions[..i], s)
    ensures i < |actions| ==> InTime(Run(y, actions[..i], s), actions[i], s)
  {
    hide Run, InTime;
    if i == |actions| {
      assert actions[..i] == actions;
    } else if i < |actions| - 1 {
      InTimeOfPrefix(y, actions[..|actions| - 1], s, i);
      assert actions[..|actions| - 1][..i] == actions[..i];
    }
  }

  /** Workers that bind and close in time never write to a cycle that was taken over. */
  lemma InTimeWritesOwn(now: int, actions: seq<Action>, s: Schedule)
    requires s.Valid() && AllInTime(System(now, map[], map[]), actions, s)
    ensures OwnersWrite(now, actions, s)
  {
    hide Binds, Marks, Next;
    forall i | 0 <= i < |actions| ensures InHand(After(now, actions, s, i), actions[i]) {
      InTimeOfPrefix(System(now, map[], map[]), actions, s, i);
      LeasesExclude(now, actions[..i], s);
    }
  }

  // ------------------------------------------------------------------ runs that overstay

  /** The first claim outlives its lease inside its ingest; the second binds file 7, scores 5 subjects as run 9
      and closes the cycle. */
  function TakenOver(s: Schedule): seq<Action>
    requires s.Valid()
  {
    [Take(1), Tick(s.lease + 1), Take(2), Bind(2, 7), Finish(2, Success(9, 5))]
  }

  lemma TakenOverRuns(s: Schedule)
    requires s.Valid() && s.window > s.lease + 1
    ensures Run(System(0, map[], map[]), TakenOver(s), s)
            == System(s.lease + 1, map[0 := Cycle(Succeeded, 2, s.lease + 1, 2, Some(7), Some(9), Some(5))],
                      map[1 := Lease(0, 0, None)])
  {
    FiveSteps(System(0, map[], map[]), Take(1), Tick(s.lease + 1), Take(2), Bind(2, 7), Finish(2, Success(9, 5)), s);
    ClaimsBefore(s);
    ClosesAfter(s);
    hide Run, Next;
  }

  /** The cycle and the two leases after the takeover. */
  function Overtaken(s: Schedule): System {
    var n := s.lease + 1;
    System(n, map[0 := Cycle(Claimed, 2, n, 2, None, None, None)], map[1 := Lease(0, 0, None), 2 := Lease(0, n, None)])
  }

  lemma ClaimsBefore(s: Schedule)
    requires s.Valid() && s.window > s.lease + 1
    ensures Next(Next(Next(System(0, map[], map[]), Take(1), s), Tick(s.lease + 1), s), Take(2), s) == Overtaken(s)
  {
    FirstBucket(0, s);
    FirstBucket(s.lease + 1, s);
    hide Bucket;
    var y := Next(Next(System(0, map[], map[]), Take(1), s), Tick(s.lease + 1), s);
    assert y == System(s.lease + 1, map[0 := Cycle(Claimed, 1, 0, 1, None, None, None)], map[1 := Lease(0, 0, None)]);
  }

  lemma ClosesAfter(s: Schedule)
    requires s.Valid()
    ensures Next(Next(Overtaken(s), Bind(2, 7), s), Finish(2, Success(9, 5)), s)
            == System(s.lease + 1, map[0 := Cycle(Succeeded, 2, s.lease + 1, 2, Some(7), Some(9), Some(5))],
                      map[1 := Lease(0, 0, None)])
  {
    var n := s.lease + 1;
    var y := Next(Overtaken(s), Bind(2, 7), s);
    assert y == System(n, map[0 := Cycle(Claimed, 2, n, 2, Some(7), None, None)],
                       map[1 := Lease(0, 0, None), 2 := Lease(0, n, Some(7))]);
    assert y.held - {2} == map[1 := Lease(0, 0, None)];
  }

  /** A worker that fails its cycle after another closed it reopens it, and a third worker scores again. */
  lemma OverstayReopens(s: Schedule)
    requires s.Valid() && s.window > s.lease + 1
    ensures var y := Run(System(0, map[], map[]), TakenOver(s), s);
            var z := Run(y, [Finish(1, Failure), Take(3)], s);
            && 0 in y.cycles && y.cycles[0].status == Succeeded
            && 0 in z.cycles && z.cycles[0].status == Claimed && z.cycles[0].claimedBy == 3 && z.cycles[0].attempts == 3
  {
    hide Run, Bucket;
    TakenOverRuns(s);
    FirstBucket(s.lease + 1, s);
    TwoSteps(Run(System(0, map[], map[]), TakenOver(s), s), Finish(1, Failure), Take(3), s);
  }

  /** A worker whose ingest returns after another closed the cycle binds its own file to it and crashes: the
      cycle names a file it was not scored from, and nobody marked it late. */
  lemma LateBindRenames(s: Schedule)
    requires s.Valid() && s.window > s.lease + 1
    ensures var y := Run(System(0, map[], map[]), TakenOver(s), s);
            var z := Run(y, [Bind(1, 8), Crash(1)], s);
            && 0 in y.cycles && y.cycles[0].status == Succeeded && y.cycles[0].file == Some(7)
            && z.cycles == map[0 := y.cycles[0].(file := Some(8))] && z.held == map[]
            && !Overmarks(y, Bind(1, 8)) && Rebinds(y, Bind(1, 8))
  {
    hide Run, Bucket;
    TakenOverRuns(s);
    TwoSteps(Run(System(0, map[], map[]), TakenOver(s), s), Bind(1, 8), Crash(1), s);
  }

  lemma TwoSteps(y: System, a: Action, b: Action, s: Schedule)
    requires s.Valid()
    ensures Run(y, [a, b], s) == Next(Next(y, a, s), b, s)
  {
    hide Next;
    assert [a, b][..1] == [a] && [a][..0] == [];
    assert Run(y, [a], s) == Next(y, a, s);
  }

  lemma FiveSteps(y: System, a: Action, b: Action, c: Action, d: Action, e: Action, s: Schedule)
    requires s.Valid()
    ensures Run(y, [a, b, c, d, e], s) == Next(Next(Next(Next(Next(y, a, s), b, s), c, s), d, s), e, s)
  {
    hide Next;
    TwoSteps(y, a, b, s);
    assert [a, b, c, d, e][..4] == [a, b, c, d] && [a, b, c, d][..3] == [a, b, c] && [a, b, c][..2] == [a, b];
    assert Run(y, [a, b, c], s) == Next(Run(y, [a, b], s), c, s);
    assert Run(y, [a, b, c, d], s) == Next(Run(y, [a, b, c], s), d, s);
  }

  lemma FirstBucket(now: int, s: Schedule)
    requires s.Valid() && 0 <= now < s.window
    ensures Bucket(now, s) == 0
  {
    assert now / s.window == 0;
  }

  // ------------------------------------------------------------------ attempts

  /** How often cycle `k` was claimed. */
  function Claims(y: System, actions: seq<Action>, s: Schedule, k: int): nat
    requires s.Valid()
  {
    if actions == [] then 0
    else
      var n := |actions| - 1;
      var z := Run(y, actions[..n], s);
      Claims(y, actions[..n], s, k) + if Takes(z, actions[n], s, k) then 1 else 0
  }

  predicate Takes(y: System, a: Action, s: Schedule, k: int)
    requires s.Valid()
  {
    && a.Take? && a.worker !in y.held && Bucket(y.now, s) == k
    && Claim(y.cycles, k, a.worker, y.now, s).Some?
  }

  /** How often cycle `k` was ingested and scored: the claims within the ceiling. */
  function Scorings(y: System, actions: seq<Action>, s: Schedule, k: int, ceiling: nat): nat
    requires s.Valid()
  {
    if actions == [] then 0
    else
      var n := |actions| - 1;
      var z := Run(y, actions[..n], s);
      Scorings(y, actions[..n], s, k, ceiling)
      + if Takes(z, actions[n], s, k) && Claim(z.cycles, k, actions[n].worker, z.now, s).value.attempts <= ceiling then 1 else 0
  }

  /** Whoever overstays, a cycle's attempts count its claims, so it is scored at most `ceiling` times,
      although a parked cycle stays claimable. */
  lemma {:induction false} CeilingHolds(now: int, actions: seq<Action>, s: Schedule, k: int, ceiling: nat)
    requires s.Valid()
    ensures var y0 := System(now, map[], map[]);
            var y, c := Run(y0, actions, s), Claims(y0, actions, s, k);
            && (k in y.cycles <==> c > 0)
            && (k in y.cycles ==> y.cycles[k].attempts == c)
            && Scorings(y0, actions, s, k, ceiling) == if c < ceiling then c else ceiling
  {
    if actions != [] {
      CeilingHolds(now, actions[..|actions| - 1], s, k, ceiling);
    }
  }
}
