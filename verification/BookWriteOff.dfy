/** Write-offs: request, four-eyes decision and crystallised loss, and that each keeps the book. */
module BookWriteOff {
  import opened BookInvariant
  import opened BookMoney
  import opened BookReferences
  import opened BookReversal
  import opened BookSafety
  import opened BookSteps
  import opened BookTables
  import opened Common
  import opened Ledger
  import opened Templates

  /** The book's other tables do not look at write-offs that stay unposted. */
  lemma WriteOffFrame(b: Book, b2: Book)
    requires Base(b) && b2 == b.(writeOffs := b2.writeOffs) && |b2.writeOffs| >= |b.writeOffs|
    requires forall w | 0 <= w < |b.writeOffs| :: b.writeOffs[w].state.WoPosted? <==> b2.writeOffs[w].state.WoPosted?
    requires forall w | |b.writeOffs| <= w < |b2.writeOffs| :: !b2.writeOffs[w].state.WoPosted?
    requires WriteOffsOk(b2)
    ensures Base(b2)
  {
    hide Tally, Core;
    CoreFrame(b, b2);
    forall e | e in b2.events ensures EventOk(b2, e) {
      assert EventOk(b, e);
    }
    forall i | 0 <= i < |b2.allocs| ensures RowOk(b2, b2.allocs[i]) {
      assert RowOk(b, b.allocs[i]);
    }
    forall i | 0 <= i < |b2.journals| ensures KeyOk(b2, b2.journals[i].key) {
      assert KeyOk(b, b.journals[i].key);
    }
    forall w | 0 <= w < |b2.writeOffs| && b2.writeOffs[w].state.WoPosted? ensures KeyTaken(b2.journals, WriteOffKey(w)) {
      assert b.writeOffs[w].state.WoPosted?;
    }
  }

  /** A request itemises exactly what is outstanding and never trips the table's CHECKs. */
  lemma RequestOutcome(b: Book, a: Id, actor: Id, eligible: bool)
    requires Inv(b)
    ensures RequestWriteOff(b, a, actor, eligible).Ok? <==>
              a < |b.advances| && IsLive(b.advances[a].state) && eligible && !HasLiveWriteOff(b, a)
    ensures RequestWriteOff(b, a, actor, eligible).Ok? ==>
              var b2 := RequestWriteOff(b, a, actor, eligible).value;
              && Inv(b2)
              && b2.writeOffs == b.writeOffs + [b2.writeOffs[|b.writeOffs|]]
              && var wo := b2.writeOffs[|b.writeOffs|];
                 wo.principal + wo.fee == b.advances[a].outstanding && wo.principal >= 0
                 && wo.fee == b.advances[a].offer.fee - Tally(b.allocs, OfAdvance(a, FeePart)) >= 0
  {
    if a < |b.advances| && IsLive(b.advances[a].state) && eligible && !HasLiveWriteOff(b, a) {
      assert AdvanceOk(b, a);
      hide Tally;
      var r := RequestWriteOff(b, a, actor, eligible);
      var b2 := r.value;
      assert WriteOffsOk(b2) by {
        hide Core, FeeRemaining;
        RequestedOk(b, b2, a);
      }
      hide FeeRemaining;
      WriteOffFrame(b, b2);
    }
    hide Base;
  }

  lemma RequestedOk(b: Book, b2: Book, a: Id)
    requires WriteOffsOk(b) && a < |b.advances| && !HasLiveWriteOff(b, a) && b2.advances == b.advances
    requires |b2.writeOffs| == |b.writeOffs| + 1 && b2.writeOffs[..|b.writeOffs|] == b.writeOffs
    requires var wo := b2.writeOffs[|b.writeOffs|];
             wo.advance == a && wo.principal >= 0 && wo.fee >= 0 && wo.state.WoRequested? && wo.approvedBy.None?
    ensures WriteOffsOk(b2)
  {
    var n := |b.writeOffs|;
    assert forall w | 0 <= w < n :: b2.writeOffs[w] == b.writeOffs[w];
    forall w | 0 <= w < |b2.writeOffs| ensures WriteOffOk(b2, w) {
      if w < n {
        assert WriteOffOk(b, w);
      }
    }
    forall x | 0 <= x < |b2.advances| && b2.advances[x].state.WrittenOff?
      ensures exists w | 0 <= w < |b2.writeOffs| :: b2.writeOffs[w].advance == x && b2.writeOffs[w].state.WoPosted?
    {
      var w :| 0 <= w < n && b.writeOffs[w].advance == x && b.writeOffs[w].state.WoPosted?;
      assert b2.writeOffs[w] == b.writeOffs[w];
    }
  }

  lemma DecidedOk(b: Book, w: Id, approver: Id)
    requires WriteOffsOk(b) && w < |b.writeOffs| && b.writeOffs[w].state.WoRequested? && approver != b.writeOffs[w].requestedBy
    ensures WriteOffsOk(b.(writeOffs := b.writeOffs[w := b.writeOffs[w].(state := WoRejected, approvedBy := Some(approver))]))
  {
    var b2 := b.(writeOffs := b.writeOffs[w := b.writeOffs[w].(state := WoRejected, approvedBy := Some(approver))]);
    forall v | 0 <= v < |b2.writeOffs| ensures WriteOffOk(b2, v) {
      assert WriteOffOk(b, v);
    }
    forall x | 0 <= x < |b2.advances| && b2.advances[x].state.WrittenOff?
      ensures exists v | 0 <= v < |b2.writeOffs| :: b2.writeOffs[v].advance == x && b2.writeOffs[v].state.WoPosted?
    {
      var v :| 0 <= v < |b.writeOffs| && b.writeOffs[v].advance == x && b.writeOffs[v].state.WoPosted?;
      assert b2.writeOffs[v] == b.writeOffs[v];
    }
  }

  lemma RejectOutcome(b: Book, w: Id, approver: Id)
    requires Inv(b)
    ensures RejectWriteOff(b, w, approver).Ok? <==>
              w < |b.writeOffs| && b.writeOffs[w].state.WoRequested? && approver != b.writeOffs[w].requestedBy
    ensures RejectWriteOff(b, w, approver).Ok? ==> Inv(RejectWriteOff(b, w, approver).value)
  {
    if w < |b.writeOffs| && b.writeOffs[w].state.WoRequested? && approver != b.writeOffs[w].requestedBy {
      DecidedOk(b, w, approver);
      var b2 := b.(writeOffs := b.writeOffs[w := b.writeOffs[w].(state := WoRejected, approvedBy := Some(approver))]);
      assert forall v | 0 <= v < |b.writeOffs| :: b.writeOffs[v].state.WoPosted? <==> b2.writeOffs[v].state.WoPosted?;
      WriteOffFrame(b, b2);
    }
    hide Base;
  }

  // ------------------------------------------------------------------ approval

  ghost function ApprovedBook(b: Book, w: Id, approver: Id): Book
    requires w < |b.writeOffs| && b.writeOffs[w].advance < |b.advances|
    requires var adv := b.advances[b.writeOffs[w].advance]; adv.pool.Some? && adv.pool.value < |b.pools|
  {
    Crystallised(b, w, b.writeOffs[w].advance).(
      writeOffs := b.writeOffs[w := b.writeOffs[w].(state := WoPosted, approvedBy := Some(approver))])
  }

  predicate Approvable(b: Book, w: Id, approver: Id, disputed: bool) {
    && w < |b.writeOffs| && b.writeOffs[w].state.WoRequested? && approver != b.writeOffs[w].requestedBy
    && b.writeOffs[w].advance < |b.advances| && IsLive(b.advances[b.writeOffs[w].advance].state)
    && !disputed
  }

  lemma CrystallisedFields(b: Book, w: Id, a: Id)
    requires a < |b.advances| && b.advances[a].pool.Some? && b.advances[a].pool.value < |b.pools|
    ensures var b2 := Crystallised(b, w, a);
            && b2 == b.(advances := b2.advances, pools := b2.pools, journals := b2.journals)
            && |b2.advances| == |b.advances|
            && (forall i | 0 <= i < |b.advances| && i != a :: b2.advances[i] == b.advances[i])
            && b2.advances[a].state.WrittenOff? && b2.advances[a].outstanding == 0
            && |b2.journals| == |b.journals| + 1
            && b2.journals == b.journals + [Journal(WriteOffKey(w), b2.journals[|b.journals|].lines)]
  {
    hide Lines, Seeded, FeeRemaining;
    assert b.allocs + [] == b.allocs;
  }

  lemma CrystallisedElsewhere(b: Book, ws: seq<WriteOff>, w: Id, a: Id)
    requires a < |b.advances| && b.advances[a].pool.Some? && b.advances[a].pool.value < |b.pools|
    ensures Crystallised(b.(writeOffs := ws), w, a) == Crystallised(b, w, a).(writeOffs := ws)
  {
    assert FeeRemaining(b.(writeOffs := ws), a) == FeeRemaining(b, a);
    hide Lines, Seeded, FeeRemaining;
  }

  /** The statements of an approval, one by one. */
  lemma ApproveParts(b: Book, w: Id, approver: Id)
    requires Core(b) && Approvable(b, w, approver, false) && !KeyTaken(b.journals, WriteOffKey(w))
    ensures AdvanceOk(b, b.writeOffs[w].advance)
    ensures ApproveWriteOff(b, w, approver, false) == Ok(ApprovedBook(b, w, approver))
  {
    var a := b.writeOffs[w].advance;
    assert AdvanceOk(b, a);
    var ws := b.writeOffs[w := b.writeOffs[w].(state := WoApproved, approvedBy := Some(approver))];
    var b1 := b.(writeOffs := ws);
    CoreFrame(b, b1);
    WriteOffGoesThrough(b1, w, a);
    CrystallisedElsewhere(b, ws, w, a);
    CrystallisedFields(b, w, a);
    assert ws[w := ws[w].(state := WoPosted)] == b.writeOffs[w := b.writeOffs[w].(state := WoPosted, approvedBy := Some(approver))];
    hide Core, Crystallised, SetOutstanding, ReduceUtilisation, PostEvent, FeeRemaining, KeyTaken, AdvanceOk;
  }

  lemma ApprovedReferences(b: Book, w: Id, approver: Id)
    requires Approvable(b, w, approver, false) && AdvanceOk(b, b.writeOffs[w].advance)
    requires (forall e | e in b.events :: EventOk(b, e)) && RowsOk(b) && KeysOk(b) && WriteOffsOk(b) && QueuesOk(b)
    ensures var b2 := ApprovedBook(b, w, approver);
            (forall e | e in b2.events :: EventOk(b2, e)) && RowsOk(b2) && KeysOk(b2) && WriteOffsOk(b2) && QueuesOk(b2)
            && b2.events == b.events && b2.ingested == b.ingested
  {
    var a := b.writeOffs[w].advance;
    var b2 := ApprovedBook(b, w, approver);
    CrystallisedFields(b, w, a);
    hide Tally, Crystallised;
    forall e | e in b2.events ensures EventOk(b2, e) {
      assert EventOk(b, e);
    }
    hide EventOk;
    forall i | 0 <= i < |b2.allocs| ensures RowOk(b2, b2.allocs[i]) {
      assert RowOk(b, b.allocs[i]);
    }
    ApprovedWriteOffs(b, b2, w, approver);
    ApprovedKeys(b, b2, w, approver);
  }

  lemma ApprovedWriteOffs(b: Book, b2: Book, w: Id, approver: Id)
    requires WriteOffsOk(b) && Approvable(b, w, approver, false)
    requires b2.writeOffs == b.writeOffs[w := b.writeOffs[w].(state := WoPosted, approvedBy := Some(approver))]
    requires |b2.advances| == |b.advances| && b2.advances[b.writeOffs[w].advance].state.WrittenOff?
    requires forall i | 0 <= i < |b.advances| && i != b.writeOffs[w].advance :: b2.advances[i] == b.advances[i]
    ensures WriteOffsOk(b2)
  {
    forall v | 0 <= v < |b2.writeOffs| ensures WriteOffOk(b2, v) {
      assert WriteOffOk(b, v);
    }
    forall x | 0 <= x < |b2.advances| && b2.advances[x].state.WrittenOff?
      ensures exists v | 0 <= v < |b2.writeOffs| :: b2.writeOffs[v].advance == x && b2.writeOffs[v].state.WoPosted?
    {
      if x == b.writeOffs[w].advance {
        assert b2.writeOffs[w].advance == x && b2.writeOffs[w].state.WoPosted?;
      } else {
        var v :| 0 <= v < |b.writeOffs| && b.writeOffs[v].advance == x && b.writeOffs[v].state.WoPosted?;
        assert b2.writeOffs[v] == b.writeOffs[v];
      }
    }
  }

  lemma ApprovedKeys(b: Book, b2: Book, w: Id, approver: Id)
    requires KeysOk(b) && Approvable(b, w, approver, false)
    requires b2.writeOffs == b.writeOffs[w := b.writeOffs[w].(state := WoPosted, approvedBy := Some(approver))]
    requires |b2.advances| == |b.advances| && b2.advances[b.writeOffs[w].advance].state.WrittenOff?
    requires forall i | 0 <= i < |b.advances| && i != b.writeOffs[w].advance :: b2.advances[i] == b.advances[i]
    requires |b2.journals| == |b.journals| + 1 && b2.journals[|b.journals|].key == WriteOffKey(w)
    requires b2.journals == b.journals + [b2.journals[|b.journals|]]
    requires b2.events == b.events && b2.reversals == b.reversals
    ensures KeysOk(b2)
  {
    var n := |b.journals|;
    forall i | 0 <= i < |b2.journals| ensures KeyOk(b2, b2.journals[i].key) {
      if i < n {
        assert b2.journals[i] == b.journals[i] && KeyOk(b, b.journals[i].key);
      }
    }
    forall k: JournalKey | KeyTaken(b.journals, k) ensures KeyTaken(b2.journals, k) {
      var i :| 0 <= i < n && b.journals[i].key == k;
      assert b2.journals[i].key == k;
    }
    assert b2.journals[n].key == WriteOffKey(w);
  }

  lemma NotPostedYet(b: Book, w: Id)
    requires KeysOk(b) && w < |b.writeOffs| && !b.writeOffs[w].state.WoPosted?
    ensures !KeyTaken(b.journals, WriteOffKey(w))
  {
    forall i | 0 <= i < |b.journals| ensures b.journals[i].key != WriteOffKey(w) {
      assert KeyOk(b, b.journals[i].key);
    }
  }

  /** An approval succeeds exactly when the request is open, the approver is not the maker, the advance is
      still live and no dispute blocks it: the money statements themselves never fail. */
  lemma ApproveOutcome(b: Book, w: Id, approver: Id, disputed: bool)
    requires Inv(b)
    ensures ApproveWriteOff(b, w, approver, disputed).Ok? <==> Approvable(b, w, approver, disputed)
    ensures ApproveWriteOff(b, w, approver, disputed).Ok? ==> Inv(ApproveWriteOff(b, w, approver, disputed).value)
  {
    if Approvable(b, w, approver, disputed) {
      var a := b.writeOffs[w].advance;
      NotPostedYet(b, w);
      ApproveParts(b, w, approver);
      WriteOffKeepsCore(b, w, a);
      hide Core, EventOk, RowsOk, KeysOk, WriteOffsOk, QueuesOk, KeyTaken, AdvanceOk, ApproveWriteOff, Crystallised,
        Tally;
      ApprovedReferences(b, w, approver);
      CoreFrame(Crystallised(b, w, a), ApprovedBook(b, w, approver));
    } else {
      hide Inv, SetOutstanding, ReduceUtilisation, PostEvent, FeeRemaining;
    }
  }
}
