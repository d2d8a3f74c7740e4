/** Versioned configuration: activation, supersession and the lookup of the version that governed a time. */
module ConfigHistory {
  import opened Common

  type Id = nat

  datatype State = Draft | Submitted | Approved | Scheduled | Active | Superseded | RolledBack | Rejected

  /** `key` is the (domain, scope) pair; the window is [from, to). */
  datatype Version = Version(key: Id, state: State, from: Option<int>, to: Option<int>,
                             createdBy: Id, approvedBy: Option<Id>)

  datatype ConfigError = NotInState | CheckViolation | NoVersion

  // ------------------------------------------------------------------ lookup

  /** The version is resolvable and its window covers time `t`. */
  predicate Covers(v: Version, key: Id, t: int) {
    && v.key == key && (v.state.Active? || v.state.Superseded?)
    && v.from.Some? && v.from.value <= t && (v.to.None? || v.to.value > t)
  }

  /** A result the lookup may give: a covering version with the latest start, or nothing if none covers.
      Among equal starts the query leaves the choice open. */
  ghost predicate IsAnswer(versions: seq<Version>, key: Id, t: int, r: Option<Id>) {
    match r
    case None => forall i | 0 <= i < |versions| :: !Covers(versions[i], key, t)
    case Some(v) =>
      && v < |versions| && Covers(versions[v], key, t)
      && forall i | 0 <= i < |versions| && Covers(versions[i], key, t) :: versions[i].from.value <= versions[v].from.value
  }

  // ------------------------------------------------------------------ lifecycle

  /** The table's maker-checker CHECK. */
  predicate Checked(v: Version) {
    (v.state.Approved? || v.state.Scheduled? || v.state.Active?) ==> v.approvedBy.Some? && v.approvedBy.value != v.createdBy
  }

  function Moved(versions: seq<Version>, id: Id, from: State, to: State, approver: Option<Id>): Result<seq<Version>, ConfigError> {
    if id >= |versions| || versions[id].state != from then Err(NotInState)
    else
      var v := versions[id].(state := to, approvedBy := if approver.Some? then approver else versions[id].approvedBy);
      if Checked(v) then Ok(versions[id := v]) else Err(CheckViolation)
  }

  /** Every ACTIVE version of the key ends at `at`. */
  function Closed(versions: seq<Version>, key: Id, at: int): seq<Version> {
    seq(|versions|, i requires 0 <= i < |versions| =>
      if versions[i].key == key && versions[i].state.Active? then versions[i].(state := Superseded, to := Some(at))
      else versions[i])
  }

  function Activated(versions: seq<Version>, id: Id, at: int): Result<seq<Version>, ConfigError> {
    if id >= |versions| || !versions[id].state.Approved? then Err(NotInState)
    else
      var closed := Closed(versions, versions[id].key, at);
      var v := closed[id].(state := Active, from := Some(at));
      if Checked(v) then Ok(closed[id := v]) else Err(CheckViolation)
  }

  class Table {
    var versions: seq<Version>

    constructor ()
      ensures versions == []
    {
      versions := [];
    }

    method Insert(key: Id, maker: Id) returns (id: Id)
      modifies this
      ensures id == |old(versions)|
      ensures versions == old(versions) + [Version(key, Draft, None, None, maker, None)]
    {
      id := |versions|;
      versions := versions + [Version(key, Draft, None, None, maker, None)];
    }

    method TransitionState(id: Id, from: State, to: State, approver: Option<Id>) returns (r: Result<(), ConfigError>)
      modifies this
      ensures match Moved(old(versions), id, from, to, approver)
              case Ok(vs) => r == Ok(()) && versions == vs
              case Err(e) => r == Err(e) && versions == old(versions)
    {
      if id >= |versions| || versions[id].state != from {
        return Err(NotInState);
      }
      var v := versions[id].(state := to);
      if approver.Some? {
        v := v.(approvedBy := approver);
      }
      if !Checked(v) {
        return Err(CheckViolation);
      }
      versions := versions[id := v];
      return Ok(());
    }

    /** Closes what is active, then flips the approved version; a failure rolls both back. */
    method Activate(id: Id, at: int) returns (r: Result<(), ConfigError>)
      modifies this
      ensures match Activated(old(versions), id, at)
              case Ok(vs) => r == Ok(()) && versions == vs
              case Err(e) => r == Err(e) && versions == old(versions)
    {
      ghost var before := versions;
      var savepoint := versions;
      if id < |versions| {
        var key := versions[id].key;
        var i := 0;
        while i < |versions|
          invariant 0 <= i <= |versions| == |before|
          invariant versions[..i] == Closed(before, key, at)[..i] && versions[i..] == before[i..]
        {
          assert versions[i] == before[i];
          if versions[i].key == key && versions[i].state.Active? {
            versions := versions[i := versions[i].(state := Superseded, to := Some(at))];
          }
          i := i + 1;
        }
        assert versions == Closed(before, key, at);
      }
      if id >= |versions| || !versions[id].state.Approved? {
        versions := savepoint;
        return Err(NotInState);
      }
      if !Checked(versions[id].(state := Active)) {
        versions := savepoint;
        return Err(CheckViolation);
      }
      versions := versions[id := versions[id].(state := Active, from := Some(at))];
      return Ok(());
    }

    /** The covering version with the latest start. */
    method GetActiveAt(key: Id, t: int) returns (r: Option<Id>)
      ensures IsAnswer(versions, key, t, r)
    {
      r := None;
      var i := 0;
      while i < |versions|
        invariant 0 <= i <= |versions|
        invariant r.Some? ==> r.value < i
        invariant IsAnswer(versions[..i], key, t, r)
      {
        if Covers(versions[i], key, t) && (r.None? || versions[r.value].from.value < versions[i].from.value) {
          r := Some(i);
        }
        i := i + 1;
      }
      assert versions[..i] == versions;
    }
  }

  // ------------------------------------------------------------------ runs

  datatype Command =
    | CmdInsert(key: Id, maker: Id)
    | CmdSubmit(id: Id)
    | CmdApprove(id: Id, approver: Id)
    | CmdActivate(id: Id, at: int)

  function Attempt(versions: seq<Version>, c: Command): Result<seq<Version>, ConfigError> {
    match c
    case CmdInsert(key, maker) => Ok(versions + [Version(key, Draft, None, None, maker, None)])
    case CmdSubmit(id) => Moved(versions, id, Draft, Submitted, None)
    case CmdApprove(id, approver) => Moved(versions, id, Submitted, Approved, Some(approver))
    case CmdActivate(id, at) => Activated(versions, id, at)
  }

  function Step(versions: seq<Version>, c: Command): seq<Version> {
    match Attempt(versions, c) case Ok(vs) => vs case Err(_) => versions
  }

  function Run(cs: seq<Command>): seq<Version> {
    if cs == [] then [] else Step(Run(cs[..|cs| - 1]), cs[|cs| - 1])
  }

  datatype Activation = Activation(id: Id, at: int)

  /** The successful activations of one key, in the order they happened. */
  function Activations(cs: seq<Command>, key: Id): seq<Activation> {
    if cs == [] then []
    else
      var rest, last := cs[..|cs| - 1], cs[|cs| - 1];
      var h, vs := Activations(rest, key), Run(rest);
      if last.CmdActivate? && Activated(vs, last.id, last.at).Ok? && last.id < |vs| && vs[last.id].key == key
      then h + [Activation(last.id, last.at)] else h
  }

  /** No activation is dated before the start of the version it supersedes. */
  predicate Ordered(h: seq<Activation>) {
    forall k | 0 < k < |h| :: h[k - 1].at <= h[k].at
  }

  /** The version of the last activation not after `t`. */
  function Governing(h: seq<Activation>, t: int): Option<Id> {
    if h == [] then None
    else if h[|h| - 1].at <= t then Some(h[|h| - 1].id)
    else Governing(h[..|h| - 1], t)
  }

  /** The resolvable versions of the key are the activated ones, each ending where the next starts. */
  ghost predicate Chain(versions: seq<Version>, h: seq<Activation>, key: Id) {
    && (forall k | 0 <= k < |h| :: Link(versions, h, key, k))
    && (forall j, k | 0 <= j < k < |h| :: h[j].id != h[k].id)
    && (forall i | 0 <= i < |versions| && versions[i].key == key && (versions[i].state.Active? || versions[i].state.Superseded?) ::
          exists k :: 0 <= k < |h| && h[k].id == i)
  }

  ghost predicate Link(versions: seq<Version>, h: seq<Activation>, key: Id, k: nat)
    requires k < |h|
  {
    && h[k].id < |versions|
    && var v := versions[h[k].id];
    && v.key == key && v.from == Some(h[k].at)
    && (if k + 1 < |h| then v.state == Superseded && v.to == Some(h[k + 1].at) else v.state == Active && v.to == None)
  }

  /** Versions not yet activated have no window. */
  predicate Windowless(versions: seq<Version>) {
    forall i | 0 <= i < |versions| ::
      versions[i].state.Draft? || versions[i].state.Submitted? || versions[i].state.Approved? ==>
        versions[i].from == None && versions[i].to == None
  }

  lemma LinkSurvives(versions: seq<Version>, h: seq<Activation>, key: Id, id: Id, at: int, k: nat)
    requires k < |h| && Link(versions, h, key, k) && Activated(versions, id, at).Ok?
    ensures h[k].id != id
    ensures Link(Activated(versions, id, at).value, if versions[id].key == key then h + [Activation(id, at)] else h, key, k)
  {
    var g := if versions[id].key == key then h + [Activation(id, at)] else h;
    assert k + 1 < |h| ==> g[k + 1] == h[k + 1];
  }

  lemma ActivationKeepsChain(versions: seq<Version>, h: seq<Activation>, key: Id, id: Id, at: int)
    requires Chain(versions, h, key) && Windowless(versions) && Activated(versions, id, at).Ok?
    ensures var after := Activated(versions, id, at).value;
            Windowless(after) &&
            Chain(after, if versions[id].key == key then h + [Activation(id, at)] else h, key)
  {
    var after := Activated(versions, id, at).value;
    var g := if versions[id].key == key then h + [Activation(id, at)] else h;
    forall k | 0 <= k < |h| ensures h[k].id != id && Link(after, g, key, k) {
      LinkSurvives(versions, h, key, id, at, k);
    }
    forall i | 0 <= i < |after| && after[i].key == key && (after[i].state.Active? || after[i].state.Superseded?)
      ensures exists k :: 0 <= k < |g| && g[k].id == i
    {
      if i == id {
        assert g[|g| - 1].id == i;
      } else {
        assert versions[i].key == key && (versions[i].state.Active? || versions[i].state.Superseded?);
        var k :| 0 <= k < |h| && h[k].id == i;
        assert g[k].id == i;
      }
    }
  }

  lemma OtherStepKeepsChain(versions: seq<Version>, h: seq<Activation>, key: Id, c: Command)
    requires Chain(versions, h, key) && Windowless(versions) && !c.CmdActivate?
    ensures Windowless(Step(versions, c)) && Chain(Step(versions, c), h, key)
  {
    var after := Step(versions, c);
    forall i | 0 <= i < |versions|
      ensures versions[i].state.Active? || versions[i].state.Superseded? ==> after[i] == versions[i]
      ensures after[i].state.Active? || after[i].state.Superseded? ==> after[i] == versions[i]
    {
    }
    forall k | 0 <= k < |h| ensures Link(after, h, key, k) {
      assert Link(versions, h, key, k);
    }
  }

  lemma {:induction false} RunsFormAChain(cs: seq<Command>, key: Id)
    ensures Windowless(Run(cs)) && Chain(Run(cs), Activations(cs, key), key)
  {
    if cs != [] {
      var rest, last := cs[..|cs| - 1], cs[|cs| - 1];
      RunsFormAChain(rest, key);
      if last.CmdActivate? {
        if Activated(Run(rest), last.id, last.at).Ok? {
          ActivationKeepsChain(Run(rest), Activations(rest, key), key, last.id, last.at);
        }
      } else {
        OtherStepKeepsChain(Run(rest), Activations(rest, key), key, last);
      }
    }
  }

  // ------------------------------------------------------------------ the history is the activations

  lemma {:induction false} OrderedIsMonotone(h: seq<Activation>, j: nat, k: nat)
    requires Ordered(h) && j <= k < |h|
    ensures h[j].at <= h[k].at
    decreases k
  {
    if j < k {
      OrderedIsMonotone(h, j, k - 1);
    }
  }

  /** The index `Governing` stops at: its window is the one that holds `t`. */
  lemma {:induction false} GoverningIndex(h: seq<Activation>, t: int) returns (k: int)
    requires Ordered(h)
    ensures -1 <= k < |h|
    ensures Governing(h, t) == if k < 0 then None else Some(h[k].id)
    ensures forall j | 0 <= j < |h| :: h[j].at <= t <==> j <= k
  {
    if h == [] {
      k := -1;
    } else if h[|h| - 1].at <= t {
      k := |h| - 1;
      forall j | 0 <= j < |h| ensures h[j].at <= t {
        OrderedIsMonotone(h, j, |h| - 1);
      }
    } else {
      k := GoverningIndex(h[..|h| - 1], t);
      assert forall j | 0 <= j < |h| - 1 :: h[..|h| - 1][j] == h[j];
    }
  }

  /** With activations in order at most one window covers any time, and exactly one does from the first
      activation on. */
  lemma WindowsPartitionTime(versions: seq<Version>, h: seq<Activation>, key: Id, t: int)
    requires Chain(versions, h, key) && Ordered(h)
    ensures forall i | 0 <= i < |versions| :: Covers(versions[i], key, t) <==> Governing(h, t) == Some(i)
    ensures Governing(h, t).Some? <==> |h| > 0 && h[0].at <= t
    ensures Governing(h, t).Some? ==> Governing(h, t).value < |versions|
  {
    var k := GoverningIndex(h, t);
    if k >= 0 {
      assert Link(versions, h, key, k);
    }
    forall i | 0 <= i < |versions| ensures Covers(versions[i], key, t) <==> Governing(h, t) == Some(i) {
      if Covers(versions[i], key, t) {
        var j :| 0 <= j < |h| && h[j].id == i;
        assert Link(versions, h, key, j);
        assert j <= k;
        assert j + 1 < |h| ==> !(h[j + 1].at <= t);
      }
    }
  }

  /** With activations in order the lookup at any time finds the version last activated by then. */
  lemma LookupIsLastActivation(cs: seq<Command>, key: Id, t: int, r: Option<Id>)
    requires Ordered(Activations(cs, key))
    ensures IsAnswer(Run(cs), key, t, r) <==> r == Governing(Activations(cs, key), t)
  {
    RunsFormAChain(cs, key);
    WindowsPartitionTime(Run(cs), Activations(cs, key), key, t);
  }

  lemma {:induction false} GoverningStable(h: seq<Activation>, g: seq<Activation>, t: int)
    requires h <= g && forall k | |h| <= k < |g| :: t < g[k].at
    ensures Governing(g, t) == Governing(h, t)
  {
    if |h| < |g| {
      GoverningStable(h, g[..|g| - 1], t);
    } else {
      assert h == g;
    }
  }

  lemma {:induction false} ActivationsGrow(cs: seq<Command>, more: seq<Command>, key: Id)
    ensures Activations(cs, key) <= Activations(cs + more, key)
  {
    if more == [] {
      assert cs + more == cs;
    } else {
      assert (cs + more)[..|cs + more| - 1] == cs + more[..|more| - 1];
      ActivationsGrow(cs, more[..|more| - 1], key);
    }
  }

  /** What governed time `t` stays what governed it, whatever is activated later than `t`. */
  lemma HistoryIsStable(cs: seq<Command>, more: seq<Command>, key: Id, t: int, r: Option<Id>)
    requires Ordered(Activations(cs + more, key))
    requires var h, g := Activations(cs, key), Activations(cs + more, key);
             forall k | |h| <= k < |g| :: t < g[k].at
    ensures IsAnswer(Run(cs + more), key, t, r) <==> IsAnswer(Run(cs), key, t, r)
  {
    var h, g := Activations(cs, key), Activations(cs + more, key);
    ActivationsGrow(cs, more, key);
    assert forall k | 0 <= k < |h| :: h[k] == g[k];
    LookupIsLastActivation(cs, key, t, r);
    LookupIsLastActivation(cs + more, key, t, r);
    GoverningStable(h, g, t);
  }

  // ------------------------------------------------------------------ backdating

  /** No activation, however it is dated, changes the answer for a time before it. */
  lemma PastIsSettled(cs: seq<Command>, id: Id, at: int, key: Id, t: int, r: Option<Id>)
    requires Activated(Run(cs), id, at).Ok? && t < at
    ensures IsAnswer(Activated(Run(cs), id, at).value, key, t, r) <==> IsAnswer(Run(cs), key, t, r)
  {
    var versions := Run(cs);
    var after := Activated(versions, id, at).value;
    forall i | 0 <= i < |versions|
      ensures Covers(after[i], key, t) == Covers(versions[i], key, t)
      ensures Covers(versions[i], key, t) ==> after[i].from == versions[i].from
    {
      RunsFormAChain(cs, versions[i].key);
      var h := Activations(cs, versions[i].key);
      if versions[i].state.Active? {
        var k :| 0 <= k < |h| && h[k].id == i;
        assert Link(versions, h, versions[i].key, k);
      }
    }
  }

  ghost predicate AtMostOneCovers(versions: seq<Version>, key: Id) {
    forall i, j, t: int | 0 <= i < j < |versions| :: !(Covers(versions[i], key, t) && Covers(versions[j], key, t))
  }

  /** An activation dated before the current version's start overlaps an earlier window, which the
      constraint over ACTIVE rows does not see; only when no earlier window has any length is it harmless. */
  lemma BackdatingOverlaps(versions: seq<Version>, h: seq<Activation>, id: Id, at: int)
    requires Activated(versions, id, at).Ok? && Windowless(versions)
    requires Chain(versions, h, versions[id].key) && Ordered(h) && |h| > 0
    ensures AtMostOneCovers(Activated(versions, id, at).value, versions[id].key)
            <==> h[|h| - 1].at <= at || h[0].at == h[|h| - 1].at
  {
    var key, last := versions[id].key, |h| - 1;
    var after := Activated(versions, id, at).value;
    var g := h + [Activation(id, at)];
    ActivationKeepsChain(versions, h, key, id, at);
    if h[last].at <= at {
      forall i, j, t: int | 0 <= i < j < |after| ensures !(Covers(after[i], key, t) && Covers(after[j], key, t)) {
        WindowsPartitionTime(after, g, key, t);
      }
    } else if h[0].at == h[last].at {
      forall i, t: int | 0 <= i < |after| && Covers(after[i], key, t) ensures i == id {
        var k :| 0 <= k < |g| && g[k].id == i;
        assert Link(after, g, key, k);
        if k < last {
          OrderedIsMonotone(h, 0, k);
          OrderedIsMonotone(h, k, k + 1);
          OrderedIsMonotone(h, k + 1, last);
        }
      }
    } else {
      var t := h[last].at - 1;
      var k := GoverningIndex(h, t);
      OrderedIsMonotone(h, 0, last);
      assert Link(after, g, key, k) && Link(after, g, key, last + 1);
      assert Covers(after[h[k].id], key, t) && Covers(after[id], key, t);
      assert h[k].id != id by {
        assert g[k].id != g[last + 1].id;
      }
    }
  }

  // ------------------------------------------------------------------ a run that overlaps

  /** One version from draft to active: maker 2, approver 3, key 1. */
  function Publish(id: Id, at: int): seq<Command> {
    [CmdInsert(1, 2), CmdSubmit(id), CmdApprove(id, 3), CmdActivate(id, at)]
  }

  function Ready(): Version {
    Version(1, Approved, None, None, 2, Some(3))
  }

  lemma RunMore(cs: seq<Command>, c: Command)
    ensures Run(cs + [c]) == Step(Run(cs), c)
  {
    hide Step;
    assert (cs + [c])[..|cs|] == cs;
  }

  lemma PublishRuns(cs: seq<Command>, at: int)
    ensures var vs := Run(cs);
            Activated(vs + [Ready()], |vs|, at) == Ok(Run(cs + Publish(|vs|, at)))
  {
    var vs := Run(cs);
    var id := |vs|;
    var c := Publish(id, at);
    RunMore(cs, c[0]);
    RunMore(cs + [c[0]], c[1]);
    RunMore(cs + [c[0]] + [c[1]], c[2]);
    RunMore(cs + [c[0]] + [c[1]] + [c[2]], c[3]);
    hide Run;
    assert cs + [c[0]] + [c[1]] + [c[2]] + [c[3]] == cs + c;
    assert Run(cs + [c[0]] + [c[1]]) == vs + [Version(1, Submitted, None, None, 2, None)];
    assert Run(cs + [c[0]] + [c[1]] + [c[2]]) == vs + [Ready()];
  }

  /** Versions activated for times 0, 10 and then 5: at time 7 the first and the third both cover, and the
      lookup's answer for that past time is the third. */
  lemma BackdatedRun()
    ensures var vs := Run(Publish(0, 0) + Publish(1, 10) + Publish(2, 5));
            && |vs| == 3 && Covers(vs[0], 1, 7) && Covers(vs[2], 1, 7) && !AtMostOneCovers(vs, 1)
            && IsAnswer(Run(Publish(0, 0) + Publish(1, 10)), 1, 7, Some(0)) && !IsAnswer(vs, 1, 7, Some(0))
  {
    assert [] + Publish(0, 0) == Publish(0, 0);
    assert Run([]) == [];
    PublishRuns([], 0);
    PublishRuns(Publish(0, 0), 10);
    PublishRuns(Publish(0, 0) + Publish(1, 10), 5);
    hide Run, Publish;
    var v0 := Ready().(state := Active, from := Some(0));
    var v1 := Ready().(state := Active, from := Some(10));
    var v2 := Ready().(state := Active, from := Some(5));
    assert Run(Publish(0, 0)) == [v0];
    var w0 := v0.(state := Superseded, to := Some(10));
    assert Run(Publish(0, 0) + Publish(1, 10)) == [w0, v1];
    assert Run(Publish(0, 0) + Publish(1, 10) + Publish(2, 5)) == [w0, v1.(state := Superseded, to := Some(5)), v2];
  }
}
